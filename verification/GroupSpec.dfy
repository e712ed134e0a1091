/** The meaning of a cylinder group's derived summaries.

    A group's free-fragment bitmap is the only primary datum. Every other counter in the group is
    defined here as a sum, over the blocks of the group, of what one block contributes. The
    allocator, the formatter, the resizer and fsck's recount are all proved against `Total`. */
module GroupSpec {

  const CYLINDERS: nat := 32
  const NRPOS: nat := 8

  /** What the group counters depend on: fragments per block, fragments per group, and the cylinder
      and rotational position of the block that starts at a group-local fragment. */
  datatype Geometry = Geometry(frag: nat, fpg: nat, cyl: nat -> nat, rot: nat -> nat)

  predicate ValidGeometry(g: Geometry) {
    && BlockSize(g.frag)
    && 0 < g.fpg
    && forall d | 0 <= d < g.fpg :: g.cyl(d) < CYLINDERS && g.rot(d) < NRPOS
  }

  /** The geometry a superblock describes. `spf`, `spc` and `nsect` are sectors per fragment, per
      cylinder and per track. */
  function DiskGeometry(frag: nat, fpg: nat, spf: nat, spc: nat, nsect: nat): Geometry
    requires 0 < spc && 0 < nsect
  {
    Geometry(frag, fpg, d => d * spf / spc, d => d * spf % spc % nsect * NRPOS / nsect)
  }

  /** The `cylno < 32 && rotpos < NRPOS` guard around the source's table updates never skips one. */
  lemma DiskGeometryValid(frag: nat, fpg: nat, spf: nat, spc: nat, nsect: nat, cpg: nat)
    requires frag in {1, 2, 4, 8} && 0 < fpg && 0 < spf && 0 < spc && 0 < nsect && cpg <= CYLINDERS
    requires cpg * spc == fpg * spf
    ensures ValidGeometry(DiskGeometry(frag, fpg, spf, spc, nsect))
  {
    forall d | 0 <= d < fpg
      ensures d * spf / spc < CYLINDERS && d * spf % spc % nsect * NRPOS / nsect < NRPOS
    {
      MulStrict(d, fpg, spf);
      DivBelow(d * spf, cpg, spc);
      DivBelow(d * spf % spc % nsect * NRPOS, NRPOS, nsect);
    }
  }

  /** `sector` is the sector `u` of the track `t` of the cylinder `c`. */
  predicate OnTrack(spc: nat, nsect: nat, sector: nat, c: nat, t: nat, u: nat) {
    c * spc <= sector < (c + 1) * spc && u < nsect && sector == c * spc + t * nsect + u
  }

  /** A block at fragment `d` belongs to cylinder `c`, and the share of the revolution that has passed
      when its first sector comes round lies in the `r`-th of `NRPOS` equal parts. */
  ghost predicate Placed(spf: nat, spc: nat, nsect: nat, d: nat, c: nat, r: nat) {
    exists t: nat, u: nat :: OnTrack(spc, nsect, d * spf, c, t, u) && r * nsect <= NRPOS * u < (r + 1) * nsect
  }

  lemma DiskPositions(frag: nat, fpg: nat, spf: nat, spc: nat, nsect: nat, d: nat)
    requires 0 < spc && 0 < nsect
    ensures var g := DiskGeometry(frag, fpg, spf, spc, nsect); Placed(spf, spc, nsect, d, g.cyl(d), g.rot(d))
  {
    var sector := d * spf;
    var into := sector % spc;
    var u := into % nsect;
    Euclid(sector, spc);
    Euclid(into, nsect);
    Euclid(u * NRPOS, nsect);
    assert OnTrack(spc, nsect, sector, sector / spc, into / nsect, u);
  }

  lemma Euclid(x: nat, m: nat)
    requires 0 < m
    ensures (x / m) * m <= x < (x / m + 1) * m && x == (x / m) * m + x % m && x % m < m
  {
  }

  lemma MulStrict(a: nat, b: nat, k: nat)
    requires a < b && 0 < k
    ensures a * k < b * k
  {
  }

  lemma DivBelow(x: nat, q: nat, d: nat)
    requires 0 < d && x < q * d
    ensures x / d < q
  {
  }

  predicate BlockSize(f: nat) {
    f == 1 || f == 2 || f == 4 || f == 8
  }

  /** `d` is a multiple of the block size `f`. */
  predicate Aligned(f: nat, d: nat) {
    match f
    case 1 => true
    case 2 => d % 2 == 0
    case 4 => d % 4 == 0
    case 8 => d % 8 == 0
    case _ => false
  }

  /** Distinct blocks do not overlap. */
  lemma BlocksApart(f: nat, d: nat, e: nat)
    requires Aligned(f, d) && Aligned(f, e) && d != e
    ensures d + f <= e || e + f <= d
  {
  }

  function RoundUp2(n: nat): (r: nat)
    ensures r % 2 == 0 && n <= r < n + 2
  {
    (n + 1) / 2 * 2
  }

  function RoundUp4(n: nat): (r: nat)
    ensures r % 4 == 0 && n <= r < n + 4
  {
    (n + 3) / 4 * 4
  }

  function RoundUp8(n: nat): (r: nat)
    ensures r % 8 == 0 && n <= r < n + 8
  {
    (n + 7) / 8 * 8
  }

  /** The next multiple of the block size. */
  function RoundUp(f: nat, n: nat): (r: nat)
    requires BlockSize(f)
    ensures Aligned(f, r) && n <= r < n + f
  {
    if f == 1 then n else if f == 2 then RoundUp2(n) else if f == 4 then RoundUp4(n) else RoundUp8(n)
  }

  /** Length of a group's bitmap: whole blocks, the last one possibly partial. */
  function MapLen(g: Geometry): nat
    requires ValidGeometry(g)
  {
    RoundUp(g.frag, g.fpg)
  }

  // ----- one block -----

  predicate AllFree(blk: seq<bool>) {
    forall i | 0 <= i < |blk| :: blk[i]
  }

  function CountFree(blk: seq<bool>): (n: nat)
    ensures n <= |blk|
    ensures n == |blk| <==> AllFree(blk)
  {
    if |blk| == 0 then 0
    else
      assert AllFree(blk) <==> blk[|blk| - 1] && AllFree(blk[..|blk| - 1]);
      CountFree(blk[..|blk| - 1]) + (if blk[|blk| - 1] then 1 else 0)
  }

  /** A maximal run of exactly `k` free fragments starts at `i`. */
  predicate IsRun(blk: seq<bool>, i: nat, k: nat) {
    && 0 < k
    && i + k <= |blk|
    && (forall j | i <= j < i + k :: blk[j])
    && (i == 0 || !blk[i - 1])
    && (i + k == |blk| || !blk[i + k])
  }

  /** Number of maximal runs of length `k` that start before `n`. */
  function RunsBefore(blk: seq<bool>, k: nat, n: nat): nat {
    if n == 0 then 0
    else RunsBefore(blk, k, n - 1) + (if IsRun(blk, n - 1, k) then 1 else 0)
  }

  function RunCount(blk: seq<bool>, k: nat): nat {
    RunsBefore(blk, k, |blk|)
  }

  lemma RunsBeforeBound(blk: seq<bool>, k: nat, n: nat)
    ensures RunsBefore(blk, k, n) <= n
  {
  }

  /** No run starts in a stretch that contains no run start. */
  lemma RunsBeforeFlat(blk: seq<bool>, k: nat, lo: nat, hi: nat)
    requires lo <= hi
    requires forall i | lo <= i < hi :: !IsRun(blk, i, k)
    ensures RunsBefore(blk, k, hi) == RunsBefore(blk, k, lo)
  {
  }

  lemma AllFreeHasNoShortRun(blk: seq<bool>, k: nat)
    requires AllFree(blk) && k < |blk|
    ensures RunCount(blk, k) == 0
  {
    RunsBeforeFlat(blk, k, 0, |blk|);
  }

  // ----- the six summaries -----

  datatype Counter =
    | WholeBlocks              // cs_nbfree
    | LooseFrags               // cs_nffree
    | Runs(k: nat)             // cg_frsum[k]
    | CylBlocks(c: nat)        // cg_btot[c]
    | RotBlocks(c: nat, r: nat) // cg_b[c][r]

  function Indicator(b: bool): nat {
    if b then 1 else 0
  }

  /** What the block at `d`, whose fragments are `blk`, adds to counter `c`. */
  function Contribution(g: Geometry, c: Counter, d: nat, blk: seq<bool>): nat
    requires ValidGeometry(g)
  {
    match c
    case WholeBlocks => Indicator(AllFree(blk))
    case LooseFrags => if AllFree(blk) then 0 else CountFree(blk)
    case Runs(k) => RunCount(blk, k)
    case CylBlocks(cy) => Indicator(AllFree(blk) && g.cyl(d) == cy)
    case RotBlocks(cy, r) =>
      Indicator(AllFree(blk) && g.cyl(d) == cy && g.rot(d) == r)
  }

  /** The fragments of the block at `d`. */
  function BlockBits(bits: seq<bool>, f: nat, d: nat): (blk: seq<bool>)
    requires d + f <= |bits|
    ensures |blk| == f
  {
    bits[d..d + f]
  }

  /** Sum of a per-block weight over the blocks that start before `n`. */
  function Sum(w: (nat, seq<bool>) -> nat, f: nat, bits: seq<bool>, n: nat): nat
    requires n <= |bits|
  {
    if f == 0 || n < f then 0
    else Sum(w, f, bits, n - f) + w(n - f, BlockBits(bits, f, n - f))
  }

  function Weight(g: Geometry, c: Counter): (nat, seq<bool>) -> nat
    requires ValidGeometry(g)
  {
    (d, blk) => Contribution(g, c, d, blk)
  }

  /** The value the bitmap `bits` defines for counter `c`. */
  function Total(g: Geometry, c: Counter, bits: seq<bool>): nat
    requires ValidGeometry(g)
  {
    Sum(Weight(g, c), g.frag, bits, |bits|)
  }

  /** Two bitmaps agree outside the block at `d`. */
  predicate SameOutside(f: nat, bits: seq<bool>, bits': seq<bool>, d: nat) {
    && |bits| == |bits'|
    && forall i | 0 <= i < |bits| && !(d <= i < d + f) :: bits'[i] == bits[i]
  }

  lemma BlockElsewhere(f: nat, bits: seq<bool>, bits': seq<bool>, d: nat, e: nat)
    requires SameOutside(f, bits, bits', d) && e + f <= |bits| && (e + f <= d || d + f <= e)
    ensures BlockBits(bits', f, e) == BlockBits(bits, f, e)
  {
    var x, y := BlockBits(bits', f, e), BlockBits(bits, f, e);
    forall i | 0 <= i < f ensures x[i] == y[i] { assert bits'[e + i] == bits[e + i]; }
  }

  lemma AlignedStep(f: nat, d: nat)
    requires Aligned(f, d)
    ensures Aligned(f, d + f) && (d < f ==> d == 0) && (f <= d ==> Aligned(f, d - f))
  {
  }

  /** Changing one block moves the sum by that block's change of weight. */
  lemma {:induction false} SumUpdate(w: (nat, seq<bool>) -> nat, f: nat, bits: seq<bool>, bits': seq<bool>, d: nat, n: nat)
    requires Aligned(f, d) && Aligned(f, n) && n <= |bits| && d + f <= |bits|
    requires SameOutside(f, bits, bits', d)
    ensures d < n ==>
      Sum(w, f, bits', n) - Sum(w, f, bits, n) == w(d, BlockBits(bits', f, d)) - w(d, BlockBits(bits, f, d))
    ensures n <= d ==> Sum(w, f, bits', n) == Sum(w, f, bits, n)
  {
    hide Aligned, SameOutside, BlockBits;
    AlignedStep(f, n);
    if f <= n {
      SumUpdate(w, f, bits, bits', d, n - f);
      if n - f != d {
        BlocksApart(f, n - f, d);
        BlockElsewhere(f, bits, bits', d, n - f);
      }
    }
  }

  lemma {:induction false} SumZero(w: (nat, seq<bool>) -> nat, f: nat, bits: seq<bool>, n: nat)
    requires n <= |bits|
    requires forall d, blk: seq<bool> | |blk| == f && (forall i | 0 <= i < f :: !blk[i]) :: w(d, blk) == 0
    requires forall i | 0 <= i < |bits| :: !bits[i]
    ensures Sum(w, f, bits, n) == 0
  {
    if 0 < f <= n {
      SumZero(w, f, bits, n - f);
    }
  }

  /** One block's share never exceeds the sum. */
  lemma {:induction false} SumAtLeast(w: (nat, seq<bool>) -> nat, f: nat, bits: seq<bool>, d: nat, n: nat)
    requires Aligned(f, d) && Aligned(f, n) && d < n <= |bits|
    ensures d + f <= n && w(d, BlockBits(bits, f, d)) <= Sum(w, f, bits, n)
  {
    AlignedStep(f, n);
    if d != n - f {
      BlocksApart(f, n, d);
      BlocksApart(f, n - f, d);
      SumAtLeast(w, f, bits, d, n - f);
    }
  }

  lemma {:induction false} SumBound(w: (nat, seq<bool>) -> nat, f: nat, bits: seq<bool>, n: nat)
    requires n <= |bits|
    requires forall d, blk: seq<bool> | |blk| == f :: w(d, blk) <= f
    ensures Sum(w, f, bits, n) <= n
  {
    if 0 < f <= n {
      SumBound(w, f, bits, n - f);
    }
  }

  lemma {:induction false} NoFreeNoCount(blk: seq<bool>)
    requires forall i | 0 <= i < |blk| :: !blk[i]
    ensures CountFree(blk) == 0
  {
    if |blk| > 0 {
      NoFreeNoCount(blk[..|blk| - 1]);
    }
  }

  /** A block without free fragments contributes to no counter. */
  lemma EmptyContributes(g: Geometry, c: Counter, d: nat, blk: seq<bool>)
    requires ValidGeometry(g) && |blk| == g.frag
    requires forall i | 0 <= i < |blk| :: !blk[i]
    ensures Contribution(g, c, d, blk) == 0
  {
    assert !blk[0];
    NoFreeNoCount(blk);
    if c.Runs? {
      forall i | 0 <= i < |blk| ensures !IsRun(blk, i, c.k) { assert !blk[i]; }
      RunsBeforeFlat(blk, c.k, 0, |blk|);
    }
  }

  /** A bitmap without free fragments makes every counter zero. */
  lemma TotalZero(g: Geometry, c: Counter, bits: seq<bool>)
    requires ValidGeometry(g)
    requires forall i | 0 <= i < |bits| :: !bits[i]
    ensures Total(g, c, bits) == 0
  {
    forall d: nat, blk: seq<bool> | |blk| == g.frag && (forall i | 0 <= i < g.frag :: !blk[i])
      ensures Weight(g, c)(d, blk) == 0
    {
      EmptyContributes(g, c, d, blk);
    }
    SumZero(Weight(g, c), g.frag, bits, |bits|);
  }

  /** Every counter is bounded by the number of fragments. */
  lemma CountersFit(g: Geometry, c: Counter, bits: seq<bool>)
    requires ValidGeometry(g)
    ensures Total(g, c, bits) <= |bits|
  {
    forall d: nat, blk: seq<bool> | |blk| == g.frag
      ensures Weight(g, c)(d, blk) <= g.frag
    {
      if c.Runs? {
        RunsBeforeBound(blk, c.k, g.frag);
      }
    }
    SumBound(Weight(g, c), g.frag, bits, |bits|);
  }

  // ----- the group -----

  /** A cylinder group's contents. `free` covers whole blocks; bits at or past `ndblk` are clear. */
  datatype Group = Group(
    ndblk: nat,
    rotor: nat,
    nbfree: int,
    nffree: int,
    frsum: seq<int>,
    btot: seq<int>,
    bpos: seq<seq<int>>,
    free: seq<bool>)

  predicate WellShaped(g: Geometry, cg: Group)
    requires ValidGeometry(g)
  {
    && |cg.free| == MapLen(g)
    && |cg.frsum| == 8 && |cg.btot| == CYLINDERS && |cg.bpos| == CYLINDERS
    && (forall c | 0 <= c < CYLINDERS :: |cg.bpos[c]| == NRPOS)
    && (forall k | 0 <= k < 8 && !(1 <= k < g.frag) :: cg.frsum[k] == 0)
  }

  /** The counters a group stores. */
  predicate Tracked(g: Geometry, c: Counter) {
    match c
    case WholeBlocks => true
    case LooseFrags => true
    case Runs(k) => 1 <= k < g.frag
    case CylBlocks(cy) => cy < CYLINDERS
    case RotBlocks(cy, r) => cy < CYLINDERS && r < NRPOS
  }

  /** The field that stores counter `c`. */
  function Field(g: Geometry, cg: Group, c: Counter): int
    requires ValidGeometry(g) && WellShaped(g, cg) && Tracked(g, c)
  {
    match c
    case WholeBlocks => cg.nbfree
    case LooseFrags => cg.nffree
    case Runs(k) => cg.frsum[k]
    case CylBlocks(cy) => cg.btot[cy]
    case RotBlocks(cy, r) => cg.bpos[cy][r]
  }

  ghost predicate CountersExact(g: Geometry, cg: Group)
    requires ValidGeometry(g)
  {
    && WellShaped(g, cg)
    && forall c | Tracked(g, c) :: Field(g, cg, c) == Total(g, c, cg.free)
  }

  /** The group invariant: every counter is the one its bitmap defines, and nothing past the end of
      the group is free. */
  ghost predicate Consistent(g: Geometry, cg: Group)
    requires ValidGeometry(g)
  {
    && CountersExact(g, cg)
    && cg.ndblk <= g.fpg
    && (forall i | cg.ndblk <= i < |cg.free| :: !cg.free[i])
  }

  /** Two consistent groups with one bitmap store the same summaries. */
  lemma SummariesDetermined(g: Geometry, a: Group, b: Group)
    requires ValidGeometry(g) && CountersExact(g, a) && CountersExact(g, b) && a.free == b.free
    ensures a.nbfree == b.nbfree && a.nffree == b.nffree && a.frsum == b.frsum && a.btot == b.btot && a.bpos == b.bpos
  {
    assert forall c | Tracked(g, c) :: Field(g, a, c) == Field(g, b, c);
    assert Field(g, a, WholeBlocks) == a.nbfree && Field(g, a, LooseFrags) == a.nffree;
    forall k | 0 <= k < 8 ensures a.frsum[k] == b.frsum[k] {
      if 1 <= k < g.frag {
        assert Field(g, a, Runs(k)) == Field(g, b, Runs(k));
      }
    }
    forall c | 0 <= c < CYLINDERS ensures a.btot[c] == b.btot[c] && a.bpos[c] == b.bpos[c] {
      assert Field(g, a, CylBlocks(c)) == Field(g, b, CylBlocks(c));
      forall r | 0 <= r < NRPOS ensures a.bpos[c][r] == b.bpos[c][r] {
        assert Field(g, a, RotBlocks(c, r)) == Field(g, b, RotBlocks(c, r));
      }
    }
  }

  /** The block at `d` lies in the bitmap. */
  predicate InMap(g: Geometry, cg: Group, d: nat)
    requires ValidGeometry(g)
  {
    Aligned(g.frag, d) && d + g.frag <= |cg.free| == MapLen(g)
  }

  lemma AlignedInMap(g: Geometry, d: nat)
    requires ValidGeometry(g) && Aligned(g.frag, d)
    ensures d < MapLen(g) <==> d + g.frag <= MapLen(g)
    ensures d < MapLen(g) <==> d < g.fpg
  {
    if d != MapLen(g) {
      BlocksApart(g.frag, d, MapLen(g));
    }
  }

  /** `cg'` is `cg` with the block at `d` rewritten and every counter moved by that block's change. */
  ghost predicate Edited(g: Geometry, cg: Group, cg': Group, d: nat)
    requires ValidGeometry(g) && WellShaped(g, cg)
  {
    && WellShaped(g, cg')
    && InMap(g, cg, d)
    && SameOutside(g.frag, cg.free, cg'.free, d)
    && forall c | Tracked(g, c) ::
         Field(g, cg', c) == Field(g, cg, c)
           + Contribution(g, c, d, BlockBits(cg'.free, g.frag, d))
           - Contribution(g, c, d, BlockBits(cg.free, g.frag, d))
  }

  /** An incremental edit keeps the counters exact. */
  lemma EditKeeps(g: Geometry, cg: Group, cg': Group, d: nat)
    requires ValidGeometry(g) && CountersExact(g, cg)
    requires Edited(g, cg, cg', d)
    ensures CountersExact(g, cg')
  {
    forall c | Tracked(g, c)
      ensures Field(g, cg', c) == Total(g, c, cg'.free)
    {
      SumUpdate(Weight(g, c), g.frag, cg.free, cg'.free, d, |cg.free|);
    }
  }
}
