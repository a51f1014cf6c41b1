// The occupancy calculators for the reference sm_75: nested integer division,
// its exact inverse, and the search for the best block size.
module Occupancy {
  import opened Bits
  import opened Words

  const WARP: nat := 32
  const MAX_THREADS: nat := 1024                    // per block and per SM
  const MAX_BLOCKS: nat := 16
  const REGS: nat := 65536
  const REG_GRAIN: nat := 256
  const MAX_REGS_PER_THREAD: nat := 256
  const PARTITIONS: nat := 4
  const SMEM_GRAIN: nat := 256
  const SMEM_PER_SM: nat := 65536
  const SMEM_PER_BLOCK: nat := 49152
  const INT_MAX: nat := 0x7fff_ffff

  datatype Stats = Stats(numRegs: nat, staticSmem: nat)

  // C division, toward zero.
  function Quot(x: int, y: nat): int
    requires y > 0
  {
    if x >= 0 then x / y else -((-x) / y)
  }

  function DivUp(x: int, y: nat): (q: int)
    requires y > 0
    ensures x >= 0 ==> q >= 0
  {
    Quot(x + (y - 1), y)
  }

  function RoundUp(x: int, y: nat): (r: int)
    requires y > 0
    ensures x >= 0 ==> r >= 0
  {
    y * DivUp(x, y)
  }

  // static_cast<int> of a size_t, and back.
  function ToInt(x: nat): int {
    var y := x % M32;
    if y > INT_MAX then y - M32 else y
  }

  function ToSize(x: int): nat { x % M64 }

  // alignUpTuring
  function Bucket(size: nat): nat { if size <= 32768 then 32768 else if size <= 65536 then 65536 else 0 }

  function AllocatedSmem(total: nat): nat { ToSize(RoundUp(ToInt(total), SMEM_GRAIN)) }

  // How many blocks the shared memory admits.
  function SmemLimit(total: nat): nat {
    var taken := AllocatedSmem(total);
    if taken > SMEM_PER_BLOCK then 0
    else if taken == 0 then INT_MAX
    else (if SMEM_PER_SM < taken then Bucket(taken) else SMEM_PER_SM) / taken
  }

  function RegsPerWarp(numRegs: nat): nat { RoundUp(numRegs * WARP, REG_GRAIN) }

  function RegLimit(numRegs: nat, warps: nat): nat
    requires warps > 0
  {
    var perWarp := RegsPerWarp(numRegs);
    if REGS >= perWarp * RoundUp(warps, PARTITIONS) && REGS >= perWarp * warps && numRegs <= MAX_REGS_PER_THREAD && perWarp > 0 then
      Div(Div(REGS / PARTITIONS, perWarp) * PARTITIONS, warps)
    else 0
  }

  // The limits that do not depend on shared memory.
  function BaseLimit(st: Stats, blockSize: nat): nat
    requires blockSize > 0
  {
    WarpsPositive(blockSize);
    var warps := DivUp(blockSize, WARP);
    Min(Min(Div(MAX_THREADS / WARP, warps), RegLimit(st.numRegs, warps)), MAX_BLOCKS)
  }

  lemma WarpsPositive(blockSize: nat)
    requires blockSize > 0
    ensures DivUp(blockSize, WARP) > 0
  { }

  // occ_active_blocks
  function ActiveBlocks(st: Stats, blockSize: int, dynamicSmem: nat): nat {
    if blockSize <= 0 || blockSize > MAX_THREADS then 0
    else Min(BaseLimit(st, blockSize), SmemLimit((st.staticSmem + dynamicSmem) % M64))
  }

  // ---- the inverse ------------------------------------------------------------------

  // Shared memory per block, as the calculator divides it up.
  method BlockShare(numBlocks: nat) returns (avail: nat)
    requires numBlocks > 0
    ensures avail == Share(numBlocks)
  {
    var smemPerSm := if numBlocks == 1 then SMEM_PER_BLOCK else SMEM_PER_SM;
    avail := Div(smemPerSm, numBlocks);
    avail := (avail / SMEM_GRAIN) * SMEM_GRAIN;
    if avail > SMEM_PER_BLOCK { avail := SMEM_PER_BLOCK; }
  }

  // occ_available_dynamic_smem. It succeeds when the blocks fit without dynamic
  // memory and the static size is within the share; a dynamic size then admits
  // the blocks if and only if Admitted says so, which short of 2^32 - 510 bytes
  // in all means: at most the result.
  method AvailableDynamicSmem(st: Stats, numBlocks: int, blockSize: int) returns (ok: bool, out: nat)
    ensures ok <==> numBlocks > 0 && ActiveBlocks(st, blockSize, 0) >= numBlocks && st.staticSmem <= Share(numBlocks)
    ensures ok ==> st.staticSmem + out == Share(numBlocks) <= SMEM_PER_BLOCK
    ensures ok ==> forall dyn: nat :: ActiveBlocks(st, blockSize, dyn) >= numBlocks <==> Admitted(st.staticSmem + dyn, numBlocks)
    ensures ok ==> forall dyn: nat :: st.staticSmem + dyn < WRAPS ==> (ActiveBlocks(st, blockSize, dyn) >= numBlocks <==> dyn <= out)
  {
    out := 0;
    hide ActiveBlocks; hide Share; hide Admitted;
    if numBlocks <= 0 { return false, out; }
    if ActiveBlocks(st, blockSize, 0) < numBlocks { return false, out; }
    var avail := BlockShare(numBlocks);
    if avail < st.staticSmem { return false, out; }
    avail := avail - st.staticSmem;
    ShareSmall(numBlocks);
    var maxDyn := if st.staticSmem >= SMEM_PER_BLOCK then 0 else SMEM_PER_BLOCK - st.staticSmem;
    if avail > maxDyn { avail := maxDyn; }
    out := avail;
    forall dyn: nat
      ensures ActiveBlocks(st, blockSize, dyn) >= numBlocks <==> Admitted(st.staticSmem + dyn, numBlocks)
      ensures st.staticSmem + dyn < WRAPS ==> (ActiveBlocks(st, blockSize, dyn) >= numBlocks <==> dyn <= out)
    {
      ActiveExactly(st, blockSize, numBlocks, dyn);
      if st.staticSmem + dyn < WRAPS { BelowWrap(st.staticSmem + dyn, numBlocks); }
    }
    return true, out;
  }

  // The most shared memory a block may use so that n of them fit.
  function Share(n: nat): nat
    requires n > 0
  {
    if n == 1 then SMEM_PER_BLOCK else Min((Div(SMEM_PER_SM, n) / SMEM_GRAIN) * SMEM_GRAIN, SMEM_PER_BLOCK)
  }

  lemma ShareSmall(n: nat)
    requires n > 0
    ensures Share(n) <= SMEM_PER_BLOCK
  { }

  lemma FitsAtMost(a: nat, n: nat)
    requires a > 0 && a % 256 == 0 && n > 0
    ensures Div(SMEM_PER_SM, a) >= n <==> a <= (Div(SMEM_PER_SM, n) / SMEM_GRAIN) * SMEM_GRAIN
  {
    DivAtLeast(SMEM_PER_SM, a, n);
    DivAtLeast(SMEM_PER_SM, n, a);
    assert a * n == n * a;
    hide Div;
    GrainFloor(a, Div(SMEM_PER_SM, n));
  }

  // The sum is cast to int before it is rounded up. Casting drops all above 32
  // bits and makes the upper half negative; rounding toward zero then turns -510
  // .. -1 into zero, and what is allocated as zero admits everything.
  const WRAPS: nat := M32 - 510

  predicate Admitted(total: nat, n: nat)
    requires n > 0
  {
    total % M32 <= Share(n) || total % M32 >= WRAPS
  }

  // For these totals the source adds 255 past the largest int, which C leaves
  // undefined; the model takes the sum as it stands and admits nothing.
  predicate RoundingOverflows(total: nat) { ToInt(total) + 255 > INT_MAX }

  lemma OverflowRange(total: nat)
    ensures RoundingOverflows(total) <==> 0x8000_0000 - 255 <= total % M32 < 0x8000_0000
  { }

  // n blocks fit exactly in these cases: the division chain has this inverse.
  lemma Admits(total: nat, n: nat)
    requires 0 < n <= MAX_BLOCKS
    ensures SmemLimit(total) >= n <==> Admitted(total, n)
  {
    var t := total % M32;
    var a := AllocatedSmem(total);
    ShareSmall(n);
    if t <= INT_MAX {
      AllocatedIs(total, t);
      ShareFloor(n);
      hide AllocatedSmem; hide Div;
      if 0 < a <= SMEM_PER_BLOCK { FitsAtMost(a, n); }
    } else {
      NegativeAllocated(total, t);
      hide AllocatedSmem; hide Share;
    }
  }

  // With the static size admitted, the dynamic size decides.
  lemma ActiveExactly(st: Stats, blockSize: int, n: nat, dyn: nat)
    requires n > 0 && ActiveBlocks(st, blockSize, 0) >= n
    ensures ActiveBlocks(st, blockSize, dyn) >= n <==> Admitted(st.staticSmem + dyn, n)
    ensures Admitted(st.staticSmem, n) && n <= MAX_BLOCKS
  {
    hide RegLimit; hide Div; hide SmemLimit; hide Share; hide DivUp;
    SameLow(st.staticSmem + dyn);
    SameLow(st.staticSmem);
    Admits((st.staticSmem + dyn) % M64, n);
    Admits(st.staticSmem % M64, n);
  }

  lemma SameLow(x: nat)
    ensures (x % M64) % M32 == x % M32
  {
    var q := x / M64;
    assert x == q * M64 + x % M64 == (q * M32) * M32 + x % M64;
    ModShift(x % M64, q * M32, M32);
  }

  lemma BelowWrap(total: nat, n: nat)
    requires n > 0 && total < WRAPS
    ensures Admitted(total, n) <==> total <= Share(n)
  { }

  // The failure behind the division is out of reach unless the static size
  // alone is 2^32 - 510 bytes or more.
  lemma StaticWithinShare(st: Stats, blockSize: int, n: nat)
    requires n > 0 && ActiveBlocks(st, blockSize, 0) >= n && st.staticSmem < WRAPS
    ensures st.staticSmem <= Share(n)
  {
    hide ActiveBlocks; hide Share;
    ActiveExactly(st, blockSize, n, 0);
    BelowWrap(st.staticSmem, n);
  }

  lemma AllocatedIs(total: nat, t: nat)
    requires t == total % M32 <= INT_MAX
    ensures AllocatedSmem(total) == ((t + 255) / 256) * 256 && AllocatedSmem(total) % 256 == 0
    ensures forall s: nat :: s % 256 == 0 ==> (AllocatedSmem(total) <= s <==> t <= s)
    ensures AllocatedSmem(total) == 0 <==> t == 0
  {
    assert ToInt(total) == t;
    var a := ((t + 255) / 256) * 256;
    assert RoundUp(t, SMEM_GRAIN) == a < M64;
    forall s: nat | s % 256 == 0 ensures a <= s <==> t <= s {
      assert s == (s / 256) * 256;
    }
  }

  lemma NegativeAllocated(total: nat, t: nat)
    requires t == total % M32 > INT_MAX
    ensures if t >= WRAPS then AllocatedSmem(total) == 0 else AllocatedSmem(total) > SMEM_PER_BLOCK
  {
    var y: int := t - M32;
    assert ToInt(total) == y;
    var q := (-(y + 255)) / 256;
    if y + 255 < 0 {
      assert RoundUp(y, SMEM_GRAIN) == 256 * -q;
      if q > 0 { assert ToSize(256 * -q) == M64 - 256 * q; }
    } else {
      assert RoundUp(y, SMEM_GRAIN) == 0;
    }
  }

  lemma DivAtLeast(x: nat, d: nat, q: nat)
    requires d > 0
    ensures x / d >= q <==> x >= q * d
  {
    var r := x / d;
    assert x == r * d + x % d;
    if r >= q { assert (r - q) * d >= 0; } else { assert (q - r - 1) * d >= 0; }
  }

  lemma GrainFloor(a: nat, x: nat)
    requires a % 256 == 0
    ensures a <= x <==> a <= (x / 256) * 256
  { }

  lemma ShareFloor(n: nat)
    requires 1 <= n <= MAX_BLOCKS
    ensures Share(n) % 256 == 0 && (n > 1 ==> Share(n) == (SMEM_PER_SM / n / 256) * 256 <= 32768)
  {
    if n > 1 { DivAtLeast(SMEM_PER_SM, n, 32769); }
  }

  // So for every kernel the result is the greatest dynamic size only among those
  // below 2^32 - 510 bytes in all: that many are admitted again, and so are 2^32,
  // which count as none.
  lemma GreatestUpTo(st: Stats, blockSize: int, n: nat, dyn: nat)
    requires n > 0 && ActiveBlocks(st, blockSize, 0) >= n && st.staticSmem <= Share(n)
    ensures Share(n) < st.staticSmem + dyn < WRAPS ==> ActiveBlocks(st, blockSize, dyn) < n
    ensures ActiveBlocks(st, blockSize, WRAPS - st.staticSmem) >= n
    ensures ActiveBlocks(st, blockSize, M32 - st.staticSmem) >= n
  {
    ShareSmall(n);
    WrapAdmits(n);
    hide ActiveBlocks; hide Share; hide Admitted;
    ActiveExactly(st, blockSize, n, dyn);
    if st.staticSmem + dyn < WRAPS { BelowWrap(st.staticSmem + dyn, n); }
    ActiveExactly(st, blockSize, n, WRAPS - st.staticSmem);
    ActiveExactly(st, blockSize, n, M32 - st.staticSmem);
  }

  lemma WrapAdmits(n: nat)
    requires n > 0
    ensures Admitted(WRAPS, n) && Admitted(M32, n)
  {
    hide Share;
  }

  // The share of n blocks, in whole grains: one block may use 48 KiB, several
  // divide up 64 KiB.
  lemma ShareMeans(n: nat)
    requires n > 0
    ensures Share(1) == 49152
    ensures n > 1 ==> Share(n) % 256 == 0 && n * Share(n) <= 65536 < n * (Share(n) + 256)
  {
    if n > 1 {
      var x := Div(SMEM_PER_SM, n);
      DivAtLeast(SMEM_PER_SM, n, 32769);
      DivAtLeast(SMEM_PER_SM, n, Share(n));
      DivAtLeast(SMEM_PER_SM, n, x + 1);
      assert Share(n) <= x < Share(n) + 256;
      ScaleLess(n, x + 1, Share(n) + 256);
    }
  }

  // ---- the other limits ---------------------------------------------------------------

  // A warp's registers are allocated in blocks of 256.
  lemma WarpAllocation(numRegs: nat)
    ensures var a := RegsPerWarp(numRegs); a % 256 == 0 && 32 * numRegs <= a < 32 * numRegs + 256
  { }

  // When registers do not rule the kernel out altogether.
  predicate RegistersFit(numRegs: nat, warps: nat) {
    0 < numRegs <= 256 && exists w: nat :: warps <= w < warps + 4 && w % 4 == 0 && RegsPerWarp(numRegs) * w <= 65536
  }

  // Each quarter of the SM holds the most warps whose allocation fits in 16384
  // registers; n blocks fit if and only if their warps are at most four times that.
  lemma RegLimitExactly(numRegs: nat, warps: nat, n: nat) returns (most: nat)
    requires warps > 0
    ensures RegistersFit(numRegs, warps) ==> forall w: nat :: w * RegsPerWarp(numRegs) <= 16384 <==> w <= most
    ensures RegistersFit(numRegs, warps) ==> (RegLimit(numRegs, warps) >= n <==> n * warps <= 4 * most)
    ensures !RegistersFit(numRegs, warps) ==> RegLimit(numRegs, warps) == 0
  {
    var a := RegsPerWarp(numRegs);
    WarpAllocation(numRegs);
    RoundedWarps(numRegs, warps);
    most := 0;
    if RegistersFit(numRegs, warps) {
      most := Div(16384, a);
      forall w: nat ensures w * a <= 16384 <==> w <= most { DivAtLeast(16384, a, w); }
      DivAtLeast(most * 4, warps, n);
      hide RegsPerWarp;
      ScaleLess(a, warps, RoundUp(warps, 4));
    }
  }

  lemma ScaleLess(a: nat, b: nat, c: nat)
    requires b <= c
    ensures a * b <= a * c
  { }

  lemma RoundedWarps(numRegs: nat, warps: nat)
    requires warps > 0
    ensures warps <= RoundUp(warps, 4) < warps + 4 && RoundUp(warps, 4) % 4 == 0
    ensures RegistersFit(numRegs, warps) <==> 0 < numRegs <= 256 && RegsPerWarp(numRegs) * RoundUp(warps, 4) <= 65536
  {
    hide RegsPerWarp;
    if 0 < numRegs <= 256 && RegsPerWarp(numRegs) * RoundUp(warps, 4) <= 65536 {
      assert RoundUp(warps, 4) % 4 == 0;
      assert RegistersFit(numRegs, warps);
    }
    if RegistersFit(numRegs, warps) {
      var w: nat :| warps <= w < warps + 4 && w % 4 == 0 && RegsPerWarp(numRegs) * w <= 65536;
      assert w == RoundUp(warps, 4);
    }
  }

  // All limits together: n blocks of the size are resident exactly if their warps,
  // registers and shared memory fit and there are at most sixteen.
  lemma ActiveMeans(st: Stats, blockSize: int, dyn: nat, n: nat)
    requires n > 0
    ensures ActiveBlocks(st, blockSize, dyn) >= n <==>
      1 <= blockSize <= 1024 && n <= 16 && n * DivUp(blockSize, 32) <= 32
      && RegLimit(st.numRegs, DivUp(blockSize, 32)) >= n && Admitted(st.staticSmem + dyn, n)
    ensures 1 <= blockSize ==> 32 * (DivUp(blockSize, 32) - 1) < blockSize <= 32 * DivUp(blockSize, 32)
  {
    if 1 <= blockSize <= 1024 {
      WarpsPositive(blockSize);
      DivAtLeast(32, DivUp(blockSize, 32), n);
      SameLow(st.staticSmem + dyn);
      hide RegLimit; hide SmemLimit; hide Admitted; hide DivUp;
      if n <= 16 { Admits((st.staticSmem + dyn) % M64, n); SameAdmitted((st.staticSmem + dyn) % M64, st.staticSmem + dyn, n); }
    }
  }

  lemma SameAdmitted(x: nat, y: nat, n: nat)
    requires n > 0 && x % M32 == y % M32
    ensures Admitted(x, n) <==> Admitted(y, n)
  { }

  // ---- the best block size ----------------------------------------------------------------

  function Threads(st: Stats, size: nat, dyn: nat -> nat): nat { Times(size, ActiveBlocks(st, size, dyn(size))) }

  function Times(a: nat, b: nat): nat { a * b }

  lemma WarpLimited(st: Stats, k: nat, dynamicSmem: nat)
    requires 1 <= k <= 32
    ensures ActiveBlocks(st, 32 * k, dynamicSmem) <= Div(32, k)
  {
    hide RegLimit; hide SmemLimit; hide Div;
    assert DivUp(32 * k, WARP) == k;
  }

  lemma ProductBound(k: nat, a: nat)
    requires k > 0 && a <= Div(32, k)
    ensures (32 * k) * a <= MAX_THREADS
  {
    DivAtLeast(32, k, a);
    assert (32 * k) * a == 32 * (a * k);
  }

  // Never more threads than the SM has: the reason the search may stop early.
  lemma ThreadsBound(st: Stats, k: nat, dyn: nat -> nat)
    requires 1 <= k <= 32
    ensures Threads(st, 32 * k, dyn) <= MAX_THREADS
  {
    WarpLimited(st, k, dyn(32 * k));
    ProductBound(k, ActiveBlocks(st, 32 * k, dyn(32 * k)));
    hide ActiveBlocks; hide Div;
  }

  // Resident threads with blocks of j warps.
  function Resident(st: Stats, dyn: nat -> nat, j: nat): nat { Threads(st, 32 * j, dyn) }

  // Of the sizes above k warps, `best` warps carry the most threads; on a tie the
  // larger size wins. Zero stands for "nothing fits".
  ghost predicate BestAbove(st: Stats, dyn: nat -> nat, k: nat, best: nat) {
    && (best == 0 || (k < best <= 32 && Resident(st, dyn, best) > 0))
    && (forall j: nat :: k < j <= 32 ==> Resident(st, dyn, j) <= Resident(st, dyn, best))
    && (forall j: nat :: k < j <= 32 && j > best ==> Resident(st, dyn, j) < Resident(st, dyn, best) || Resident(st, dyn, best) == 0)
  }

  lemma BestNext(st: Stats, dyn: nat -> nat, k: nat, best: nat)
    requires 1 <= k <= 32 && BestAbove(st, dyn, k, best)
    ensures BestAbove(st, dyn, k - 1, if Resident(st, dyn, k) > Resident(st, dyn, best) then k else best)
  {
    NothingYet(st, dyn);
    hide Resident;
  }

  // A full SM cannot be bettered, so the rest of the search may be skipped.
  lemma BestFull(st: Stats, dyn: nat -> nat, k: nat, best: nat)
    requires k <= 32 && BestAbove(st, dyn, k, best) && Resident(st, dyn, best) == MAX_THREADS
    ensures BestAbove(st, dyn, 0, best)
  {
    NothingYet(st, dyn);
    hide Threads;
    forall j: nat | 1 <= j <= 32 ensures Resident(st, dyn, j) <= MAX_THREADS { ThreadsBound(st, j, dyn); }
    hide Resident;
  }

  lemma NothingYet(st: Stats, dyn: nat -> nat)
    ensures BestAbove(st, dyn, 32, 0) && Resident(st, dyn, 0) == 0 && ActiveBlocks(st, 0, dyn(0)) == 0
  { }

  lemma ResidentIs(st: Stats, dyn: nat -> nat, j: nat)
    ensures Resident(st, dyn, j) == (32 * j) * ActiveBlocks(st, 32 * j, dyn(32 * j))
  { }

  // occ_potential_block_size: the multiple of a warp with the most resident
  // threads, the largest such on ties; zero when nothing fits.
  method PotentialBlockSize(st: Stats, dyn: nat -> nat, numSms: nat) returns (minGrid: nat, block: nat)
    ensures block % 32 == 0 && BestAbove(st, dyn, 0, block / 32)
    ensures minGrid == ActiveBlocks(st, block, dyn(block)) * numSms
  {
    NothingYet(st, dyn);
    hide ActiveBlocks; hide Resident; hide BestAbove; hide Threads;
    var bestBlock: nat, bestNumBlocks: nat, bestThreads: nat := 0, 0, 0;
    ghost var b: nat := 0;
    var k: nat := 32;
    while k > 0
      invariant k <= 32 && bestBlock == 32 * b && BestAbove(st, dyn, k, b)
      invariant bestThreads == Resident(st, dyn, b) && bestNumBlocks == ActiveBlocks(st, bestBlock, dyn(bestBlock))
    {
      var trySize := 32 * k;
      var active := ActiveBlocks(st, trySize, dyn(trySize));
      ResidentIs(st, dyn, k);
      var threads := trySize * active;
      BestNext(st, dyn, k, b);
      if threads > bestThreads {
        bestThreads, bestBlock, bestNumBlocks := threads, trySize, active;
        b := k;
      }
      k := k - 1;
      if bestThreads == MAX_THREADS {
        BestFull(st, dyn, k, b);
        k := 0;
      }
    }
    return bestNumBlocks * numSms, bestBlock;
  }
}
