/** Bitmap operations on one cylinder group: partial and whole-block allocation, tail extension and
    freeing. A group buffer is read from disk, edited and written back; here it is a local value. */
module CylinderGroup {
  import opened GroupSpec
  import opened Runs

  datatype Error = EINVAL | ENOSPC

  // ----- ranges of the bitmap -----

  function WithRange(bits: seq<bool>, s: nat, n: nat, v: bool): (r: seq<bool>)
    requires s + n <= |bits|
    ensures |r| == |bits|
    ensures forall i | 0 <= i < |r| :: r[i] == if s <= i < s + n then v else bits[i]
  {
    bits[..s] + seq(n, _ => v) + bits[s + n..]
  }

  predicate RangeIs(bits: seq<bool>, s: nat, n: nat, v: bool) {
    s + n <= |bits| && forall i | s <= i < s + n :: bits[i] == v
  }

  /** `n` free fragments from offset `o` of the block at `d`, all inside that block. */
  predicate FreeRun(f: nat, bits: seq<bool>, d: nat, o: nat, n: nat) {
    && o + n <= f && Aligned(f, d) && d + f <= |bits|
    && RangeIs(bits, d + o, n, true)
  }

  predicate WholeFree(f: nat, bits: seq<bool>, d: nat) {
    d + f <= |bits| && AllFree(BlockBits(bits, f, d))
  }

  method RangeFree(bits: seq<bool>, s: nat, n: nat) returns (b: bool)
    requires s + n <= |bits|
    ensures b <==> RangeIs(bits, s, n, true)
  {
    for i := 0 to n
      invariant forall j | s <= j < s + i :: bits[j]
    {
      if !bits[s + i] {
        return false;
      }
    }
    return true;
  }

  method ClearRange(bits: seq<bool>, s: nat, n: nat) returns (out: seq<bool>)
    requires s + n <= |bits|
    ensures out == WithRange(bits, s, n, false)
  {
    out := bits;
    for i := 0 to n
      invariant out == WithRange(bits, s, i, false)
    {
      out := out[s + i := false];
    }
  }

  // ----- what an edit of one block does to its contributions -----

  lemma {:induction false} CountSplit(a: seq<bool>, b: seq<bool>)
    ensures CountFree(a + b) == CountFree(a) + CountFree(b)
  {
    if |b| == 0 {
      assert a + b == a;
    } else {
      assert (a + b)[..|a + b| - 1] == a + b[..|b| - 1];
      CountSplit(a, b[..|b| - 1]);
    }
  }

  /** Taking `n` free fragments lowers the free count by `n`. */
  lemma CountRange(blk: seq<bool>, o: nat, n: nat)
    requires RangeIs(blk, o, n, true)
    ensures CountFree(WithRange(blk, o, n, false)) == CountFree(blk) - n
  {
    var mid := blk[o..o + n];
    var cut := seq(n, _ => false);
    assert blk == blk[..o] + mid + blk[o + n..];
    CountSplit(blk[..o] + mid, blk[o + n..]);
    CountSplit(blk[..o], mid);
    CountSplit(blk[..o] + cut, blk[o + n..]);
    CountSplit(blk[..o], cut);
    assert AllFree(mid);
    NoFreeNoCount(cut);
  }

  /** An edit of the bitmap inside the block at `d`, seen from that block. */
  lemma RangeInBlock(bits: seq<bool>, f: nat, d: nat, o: nat, n: nat, v: bool)
    requires d + f <= |bits| && o + n <= f
    ensures BlockBits(WithRange(bits, d + o, n, v), f, d) == WithRange(BlockBits(bits, f, d), o, n, v)
    ensures RangeIs(bits, d + o, n, !v) ==> RangeIs(BlockBits(bits, f, d), o, n, !v)
    ensures SameOutside(f, bits, WithRange(bits, d + o, n, v), d)
  {
    var l, r := BlockBits(WithRange(bits, d + o, n, v), f, d), WithRange(BlockBits(bits, f, d), o, n, v);
    assert forall i | 0 <= i < f :: l[i] == r[i];
  }

  /** Only the tail of the block, from `o` on, is free: one run. */
  lemma SuffixRuns(blk: seq<bool>, o: nat, k: nat)
    requires 0 < o <= |blk| && 1 <= k
    requires forall i | 0 <= i < |blk| :: blk[i] <==> o <= i
    ensures RunCount(blk, k) == Indicator(k == |blk| - o)
  {
    forall j | 0 <= j < o ensures !IsRun(blk, j, k) { assert !blk[j]; }
    RunsBeforeFlat(blk, k, 0, o);
    if o < |blk| {
      assert IsRun(blk, o, k) <==> k == |blk| - o by {
        assert blk[o];
        if o + k < |blk| { assert blk[o + k]; }
      }
      forall j | o + 1 <= j < |blk| ensures !IsRun(blk, j, k) { assert blk[j - 1]; }
      RunsBeforeFlat(blk, k, o + 1, |blk|);
    }
  }

  /** Only the head of the block, before `o`, is free: one run. */
  lemma PrefixRuns(blk: seq<bool>, o: nat, k: nat)
    requires o < |blk| && 1 <= k
    requires forall i | 0 <= i < |blk| :: blk[i] <==> i < o
    ensures RunCount(blk, k) == Indicator(k == o)
  {
    if o == 0 {
      forall j | 0 <= j < |blk| ensures !IsRun(blk, j, k) { assert !blk[j]; }
      RunsBeforeFlat(blk, k, 0, |blk|);
    } else {
      assert IsRun(blk, 0, k) <==> k == o by {
        assert !blk[o] && blk[0];
        if k < o { assert blk[k]; }
      }
      forall j | 1 <= j < |blk| ensures !IsRun(blk, j, k) {
        if j <= o { assert blk[j - 1]; } else { assert !blk[j]; }
      }
      RunsBeforeFlat(blk, k, 1, |blk|);
    }
  }

  /** The loose fragments of one block. */
  function Loose(blk: seq<bool>): nat {
    if AllFree(blk) then 0 else CountFree(blk)
  }

  function Whole(blk: seq<bool>): nat {
    Indicator(AllFree(blk))
  }

  lemma BlockCounted(g: Geometry, cg: Group, d: nat)
    requires ValidGeometry(g) && CountersExact(g, cg) && InMap(g, cg, d)
    ensures Loose(BlockBits(cg.free, g.frag, d)) <= cg.nffree
    ensures Whole(BlockBits(cg.free, g.frag, d)) <= cg.nbfree
  {
    SumAtLeast(Weight(g, LooseFrags), g.frag, cg.free, d, |cg.free|);
    assert Field(g, cg, LooseFrags) == cg.nffree;
    SumAtLeast(Weight(g, WholeBlocks), g.frag, cg.free, d, |cg.free|);
    assert Field(g, cg, WholeBlocks) == cg.nbfree;
  }

  lemma RunInBlock(f: nat, bits: seq<bool>, d: nat, o: nat, n: nat)
    requires FreeRun(f, bits, d, o, n)
    ensures n <= CountFree(BlockBits(bits, f, d))
  {
    RangeInBlock(bits, f, d, o, n, false);
    CountRange(BlockBits(bits, f, d), o, n);
  }

  /** A run shows up in the group totals. */
  lemma RunIsCounted(g: Geometry, cg: Group, d: nat, o: nat, n: nat)
    requires ValidGeometry(g) && CountersExact(g, cg)
    requires FreeRun(g.frag, cg.free, d, o, n)
    ensures !WholeFree(g.frag, cg.free, d) ==> n <= cg.nffree
    ensures WholeFree(g.frag, cg.free, d) ==> 0 < cg.nbfree
  {
    BlockCounted(g, cg, d);
    RunInBlock(g.frag, cg.free, d, o, n);
  }

  /** What taking `n` free fragments does to the block that holds them. */
  lemma TakeInBlock(f: nat, bits: seq<bool>, d: nat, o: nat, n: nat)
    requires 0 < n && FreeRun(f, bits, d, o, n)
    ensures var bits' := WithRange(bits, d + o, n, false);
      && SameOutside(f, bits, bits', d)
      && !AllFree(BlockBits(bits', f, d))
      && CountFree(BlockBits(bits', f, d)) == CountFree(BlockBits(bits, f, d)) - n
  {
    RangeInBlock(bits, f, d, o, n, false);
    var blk := BlockBits(bits, f, d);
    CountRange(blk, o, n);
    assert !WithRange(blk, o, n, false)[o];
  }

  /** The runs left when the head of a wholly free block is taken. */
  lemma SplitRuns(f: nat, bits: seq<bool>, d: nat, n: nat, k: nat)
    requires WholeFree(f, bits, d) && 0 < n <= f && 1 <= k < f
    ensures RunCount(BlockBits(bits, f, d), k) == 0
    ensures RunCount(BlockBits(WithRange(bits, d, n, false), f, d), k) == Indicator(k == f - n)
  {
    RangeInBlock(bits, f, d, 0, n, false);
    var blk := BlockBits(bits, f, d);
    AllFreeHasNoShortRun(blk, k);
    SuffixRuns(WithRange(blk, 0, n, false), n, k);
  }

  /** What freeing `n` used fragments does to the block that holds them. */
  lemma FreeInBlock(f: nat, bits: seq<bool>, d: nat, o: nat, n: nat)
    requires 0 < n && o + n <= f && d + f <= |bits| && RangeIs(bits, d + o, n, false)
    ensures var bits' := WithRange(bits, d + o, n, true);
      && SameOutside(f, bits, bits', d)
      && !AllFree(BlockBits(bits, f, d))
      && CountFree(BlockBits(bits', f, d)) == CountFree(BlockBits(bits, f, d)) + n
  {
    RangeInBlock(bits, f, d, o, n, true);
    var blk := BlockBits(bits, f, d);
    var blk' := WithRange(blk, o, n, true);
    assert WithRange(blk', o, n, false) == blk;
    CountRange(blk', o, n);
    assert !blk[o];
  }

  // ----- counter updates -----

  method ApplyFrsumDelta(frsum: seq<int>, before: seq<int>, after: seq<int>, f: nat) returns (out: seq<int>)
    requires 1 <= f <= |frsum| && f <= |before| && f <= |after|
    ensures |out| == |frsum|
    ensures forall k | 1 <= k < f :: out[k] == frsum[k] + after[k] - before[k]
    ensures forall k | 0 <= k < |out| && !(1 <= k < f) :: out[k] == frsum[k]
  {
    out := frsum;
    for i := 1 to f
      invariant |out| == |frsum|
      invariant forall k | 1 <= k < i :: out[k] == frsum[k] + after[k] - before[k]
      invariant forall k | 0 <= k < |out| && !(1 <= k < i) :: out[k] == frsum[k]
    {
      var delta := after[i] - before[i];
      if delta != 0 {
        out := out[i := out[i] + delta];
      }
    }
  }

  /** The run counts after the block at `d` changed from `free` to `free'`. */
  method MoveFrsum(frsum: seq<int>, free: seq<bool>, free': seq<bool>, d: nat, f: nat) returns (out: seq<int>)
    requires 1 <= f <= |frsum| && d + f <= |free| == |free'|
    ensures |out| == |frsum|
    ensures forall k | 1 <= k < f ::
      out[k] == frsum[k] + RunCount(BlockBits(free', f, d), k) - RunCount(BlockBits(free, f, d), k)
    ensures forall k | 0 <= k < |out| && !(1 <= k < f) :: out[k] == frsum[k]
  {
    var before := CountFreeRuns(free, d, f);
    var after := CountFreeRuns(free', d, f);
    out := ApplyFrsumDelta(frsum, before, after, f);
  }

  function Bumped(s: seq<int>, i: nat, delta: int): seq<int>
    requires i < |s|
  {
    s[i := s[i] + delta]
  }

  /** Adds `delta` to the two rotational tables at the block that starts at `d`. The guard is the
      source's; a valid geometry makes it true. */
  method BumpTables(g: Geometry, btot: seq<int>, bpos: seq<seq<int>>, d: nat, delta: int)
    returns (btot': seq<int>, bpos': seq<seq<int>>)
    requires ValidGeometry(g) && d < g.fpg
    requires |btot| == CYLINDERS && |bpos| == CYLINDERS && forall c | 0 <= c < CYLINDERS :: |bpos[c]| == NRPOS
    ensures btot' == Bumped(btot, g.cyl(d), delta)
    ensures bpos' == bpos[g.cyl(d) := Bumped(bpos[g.cyl(d)], g.rot(d), delta)]
  {
    var cylno, rotpos := g.cyl(d), g.rot(d);
    btot', bpos' := btot, bpos;
    if cylno < CYLINDERS && rotpos < NRPOS {
      btot' := btot[cylno := btot[cylno] + delta];
      bpos' := bpos[cylno := bpos[cylno][rotpos := bpos[cylno][rotpos] + delta]];
    }
  }

  /** The rotational tables follow a change of `delta` whole free blocks at the block at `d`. */
  ghost predicate TablesMoved(g: Geometry, cg: Group, cg': Group, d: nat, delta: int)
    requires ValidGeometry(g) && WellShaped(g, cg) && d < g.fpg
  {
    if delta == 0 then
      cg'.btot == cg.btot && cg'.bpos == cg.bpos
    else
      && cg'.btot == Bumped(cg.btot, g.cyl(d), delta)
      && cg'.bpos == cg.bpos[g.cyl(d) := Bumped(cg.bpos[g.cyl(d)], g.rot(d), delta)]
  }

  /** The run counts moved by the change of the block at `d`. */
  ghost predicate FrsumMoved(g: Geometry, cg: Group, cg': Group, d: nat)
    requires ValidGeometry(g) && WellShaped(g, cg) && WellShaped(g, cg')
  {
    && d + g.frag <= |cg.free|
    && forall k | 1 <= k < g.frag ::
         cg'.frsum[k] == cg.frsum[k] + RunCount(BlockBits(cg'.free, g.frag, d), k) - RunCount(BlockBits(cg.free, g.frag, d), k)
  }

  /** The fields moved with the change of the block at `d`, which gained `dWhole` whole blocks and
      `dLoose` loose fragments. */
  ghost predicate FieldsMoved(g: Geometry, cg: Group, cg': Group, d: nat, dWhole: int, dLoose: int)
    requires ValidGeometry(g)
  {
    && WellShaped(g, cg) && WellShaped(g, cg') && InMap(g, cg, d) && d < g.fpg
    && SameOutside(g.frag, cg.free, cg'.free, d)
    && dWhole == Whole(BlockBits(cg'.free, g.frag, d)) - Whole(BlockBits(cg.free, g.frag, d))
    && dLoose == Loose(BlockBits(cg'.free, g.frag, d)) - Loose(BlockBits(cg.free, g.frag, d))
    && cg'.nbfree == cg.nbfree + dWhole && cg'.nffree == cg.nffree + dLoose
    && TablesMoved(g, cg, cg', d, dWhole) && FrsumMoved(g, cg, cg', d)
  }

  /** Counters moved field by field with the change of one block stay exact. */
  lemma FieldsEdited(g: Geometry, cg: Group, cg': Group, d: nat, dWhole: int, dLoose: int)
    requires ValidGeometry(g) && CountersExact(g, cg) && FieldsMoved(g, cg, cg', d, dWhole, dLoose)
    ensures CountersExact(g, cg')
  {
    FieldsAre(g, cg, cg', d, dWhole, dLoose);
    EditKeeps(g, cg, cg', d);
  }

  lemma FieldsAre(g: Geometry, cg: Group, cg': Group, d: nat, dWhole: int, dLoose: int)
    requires ValidGeometry(g) && FieldsMoved(g, cg, cg', d, dWhole, dLoose)
    ensures Edited(g, cg, cg', d)
  {
    var old_, new_ := BlockBits(cg.free, g.frag, d), BlockBits(cg'.free, g.frag, d);
    forall c | Tracked(g, c)
      ensures Field(g, cg', c) == Field(g, cg, c) + Contribution(g, c, d, new_) - Contribution(g, c, d, old_)
    {
      match c
      case WholeBlocks =>
      case LooseFrags =>
      case Runs(k) =>
      case CylBlocks(cy) =>
      case RotBlocks(cy, r) =>
    }
  }

  // ----- allocation -----

  datatype GroupGrant = Granted(start: nat, cg: Group) | Refused(error: Error)

  /** The fragments `[s, s+n)` of a consistent group become used. */
  ghost predicate Took(g: Geometry, cg: Group, cg': Group, s: nat, n: nat)
    requires ValidGeometry(g)
  {
    && Consistent(g, cg')
    && cg'.ndblk == cg.ndblk
    && s + n <= cg.ndblk <= |cg.free|
    && cg'.free == WithRange(cg.free, s, n, false)
  }

  /** A free run ends before the group does. */
  lemma RunBelowLimit(g: Geometry, cg: Group, d: nat, o: nat, n: nat)
    requires ValidGeometry(g) && Consistent(g, cg) && 0 < n && FreeRun(g.frag, cg.free, d, o, n)
    ensures d + o + n <= cg.ndblk <= |cg.free|
  {
    assert cg.free[d + o + n - 1];
  }

  /** Takes `n` fragments from offset `o` of the partial block at `d`. */
  method TakePartial(g: Geometry, cg: Group, d: nat, o: nat, n: nat) returns (cg': Group)
    requires ValidGeometry(g) && Consistent(g, cg)
    requires 0 < n && FreeRun(g.frag, cg.free, d, o, n) && !WholeFree(g.frag, cg.free, d)
    ensures Took(g, cg, cg', d + o, n)
    ensures cg'.nbfree == cg.nbfree && cg'.nffree == cg.nffree - n && cg'.rotor == cg.rotor
  {
    var free := ClearRange(cg.free, d + o, n);
    var frsum := MoveFrsum(cg.frsum, cg.free, free, d, g.frag);
    cg' := cg.(free := free, frsum := frsum, nffree := cg.nffree - n);
    RunBelowLimit(g, cg, d, o, n);
    PartialTaken(g, cg, cg', d, o, n);
  }

  lemma PartialTaken(g: Geometry, cg: Group, cg': Group, d: nat, o: nat, n: nat)
    requires ValidGeometry(g) && CountersExact(g, cg) && WellShaped(g, cg') && d < g.fpg && 0 < n
    requires FreeRun(g.frag, cg.free, d, o, n) && !WholeFree(g.frag, cg.free, d)
    requires cg'.free == WithRange(cg.free, d + o, n, false) && FrsumMoved(g, cg, cg', d)
    requires cg'.nbfree == cg.nbfree && cg'.nffree == cg.nffree - n
    requires cg'.btot == cg.btot && cg'.bpos == cg.bpos
    ensures CountersExact(g, cg')
  {
    TakeInBlock(g.frag, cg.free, d, o, n);
    FieldsEdited(g, cg, cg', d, 0, 0 - n);
  }

  /** Splits the wholly free block at `d`: its first `n` fragments are used, the rest stay free. */
  method TakeWhole(g: Geometry, cg: Group, d: nat, n: nat) returns (cg': Group)
    requires ValidGeometry(g) && Consistent(g, cg)
    requires InMap(g, cg, d) && 0 < n <= g.frag && WholeFree(g.frag, cg.free, d)
    ensures Took(g, cg, cg', d, n)
    ensures cg'.nbfree == cg.nbfree - 1 && cg'.nffree == cg.nffree + (g.frag - n) && cg'.rotor == d
  {
    RunInWhole(g.frag, cg.free, d, n);
    RunBelowLimit(g, cg, d, 0, n);
    var free := ClearRange(cg.free, d, n);
    cg' := cg.(free := free, rotor := d, nbfree := cg.nbfree - 1);
    var freeFrags := g.frag - n;
    cg' := cg'.(nffree := cg'.nffree + freeFrags);
    if freeFrags > 0 {
      cg' := cg'.(frsum := cg'.frsum[freeFrags := cg'.frsum[freeFrags] + 1]);
    }
    var btot, bpos := BumpTables(g, cg.btot, cg.bpos, d, -1);
    cg' := cg'.(btot := btot, bpos := bpos);
    WholeTaken(g, cg, cg', d, n);
  }

  lemma WholeTaken(g: Geometry, cg: Group, cg': Group, d: nat, n: nat)
    requires ValidGeometry(g) && CountersExact(g, cg) && WellShaped(g, cg')
    requires InMap(g, cg, d) && d < g.fpg && 0 < n <= g.frag && WholeFree(g.frag, cg.free, d)
    requires cg'.free == WithRange(cg.free, d, n, false)
    requires forall k | 1 <= k < g.frag :: cg'.frsum[k] == cg.frsum[k] + Indicator(k == g.frag - n)
    requires cg'.nbfree == cg.nbfree - 1 && cg'.nffree == cg.nffree + (g.frag - n)
    requires TablesMoved(g, cg, cg', d, -1)
    ensures CountersExact(g, cg')
  {
    RunInWhole(g.frag, cg.free, d, n);
    TakeInBlock(g.frag, cg.free, d, 0, n);
    forall k | 1 <= k < g.frag
      ensures cg'.frsum[k] == cg.frsum[k] + RunCount(BlockBits(cg'.free, g.frag, d), k) - RunCount(BlockBits(cg.free, g.frag, d), k)
    {
      SplitRuns(g.frag, cg.free, d, n, k);
    }
    FieldsEdited(g, cg, cg', d, -1, g.frag - n);
  }

  lemma RunInWhole(f: nat, bits: seq<bool>, d: nat, n: nat)
    requires Aligned(f, d) && WholeFree(f, bits, d) && n <= f
    ensures FreeRun(f, bits, d, 0, n)
  {
    WholeIsRange(f, bits, d);
  }

  lemma WholeIsRange(f: nat, bits: seq<bool>, d: nat)
    requires d + f <= |bits|
    ensures WholeFree(f, bits, d) <==> RangeIs(bits, d, f, true)
  {
    if WholeFree(f, bits, d) {
      forall i | d <= i < d + f ensures bits[i] {
        assert BlockBits(bits, f, d)[i - d];
      }
    }
  }

  /** Some run of `n` free fragments lies inside one block of the group. */
  ghost predicate HasRun(g: Geometry, cg: Group, n: nat)
    requires ValidGeometry(g)
  {
    exists d: nat, o: nat :: FreeRun(g.frag, cg.free, d, o, n)
  }

  /** A group without a wholly free block counts none. */
  lemma {:induction false} NoWholeNoCount(g: Geometry, bits: seq<bool>, n: nat)
    requires ValidGeometry(g) && Aligned(g.frag, n) && n <= |bits|
    requires forall d: nat | Aligned(g.frag, d) && d < n :: !WholeFree(g.frag, bits, d)
    ensures Sum(Weight(g, WholeBlocks), g.frag, bits, n) == 0
  {
    AlignedStep(g.frag, n);
    if g.frag <= n {
      NoWholeNoCount(g, bits, n - g.frag);
      assert !WholeFree(g.frag, bits, n - g.frag);
    }
  }

  ghost predicate NoWholeBelow(g: Geometry, bits: seq<bool>, n: nat) {
    forall d: nat | Aligned(g.frag, d) && d < n :: !WholeFree(g.frag, bits, d)
  }

  lemma {:induction false} CountedWhole(g: Geometry, cg: Group)
    requires ValidGeometry(g) && Consistent(g, cg)
    ensures cg.nbfree == 0 <==> NoWholeBelow(g, cg.free, cg.ndblk)
  {
    assert Field(g, cg, WholeBlocks) == Total(g, WholeBlocks, cg.free);
    if NoWholeBelow(g, cg.free, cg.ndblk) {
      forall d: nat | Aligned(g.frag, d) && d < |cg.free| ensures !WholeFree(g.frag, cg.free, d) {
        if WholeFree(g.frag, cg.free, d) { RunInWhole(g.frag, cg.free, d, g.frag); RunBelowLimit(g, cg, d, 0, g.frag); }
      }
      NoWholeNoCount(g, cg.free, |cg.free|);
    } else {
      var d: nat :| Aligned(g.frag, d) && d < cg.ndblk && WholeFree(g.frag, cg.free, d);
      SumAtLeast(Weight(g, WholeBlocks), g.frag, cg.free, d, |cg.free|);
    }
  }

  /** A group that counts a whole block has a run of every length. */
  lemma WholeHasRun(g: Geometry, cg: Group, n: nat)
    requires ValidGeometry(g) && Consistent(g, cg) && cg.nbfree > 0 && n <= g.frag
    ensures HasRun(g, cg, n)
  {
    hide Consistent, Aligned, WholeFree;
    CountedWhole(g, cg);
    var d: nat :| Aligned(g.frag, d) && d < cg.ndblk && WholeFree(g.frag, cg.free, d);
    RunInWhole(g.frag, cg.free, d, n);
  }

  /** Some run of `n` free fragments lies inside a block that is not wholly free. */
  ghost predicate HasPartialRun(g: Geometry, cg: Group, n: nat)
    requires ValidGeometry(g)
  {
    exists d: nat, o: nat :: FreeRun(g.frag, cg.free, d, o, n) && !WholeFree(g.frag, cg.free, d)
  }

  /** How the two group totals move, for a run taken from a partial or from a whole block. */
  predicate GrantDelta(g: Geometry, cg: Group, cg': Group, n: nat, whole: bool) {
    if whole then
      cg'.nbfree == cg.nbfree - 1 && cg'.nffree == cg.nffree + g.frag - n
    else
      cg'.nbfree == cg.nbfree && cg'.nffree == cg.nffree - n
  }

  /** The grant is `n` fragments at offset `o` of the block at `d`, which were free. */
  ghost predicate GrantAt(g: Geometry, cg: Group, r: GroupGrant, d: nat, o: nat, n: nat)
    requires ValidGeometry(g) && r.Granted?
  {
    && r.start == d + o
    && FreeRun(g.frag, cg.free, d, o, n)
    && Took(g, cg, r.cg, r.start, n)
    && GrantDelta(g, cg, r.cg, n, WholeFree(g.frag, cg.free, d))
  }

  /** The first run that serves: any other one before it lies in a whole free block, and then the run
      itself does not. */
  ghost predicate FirstFit(g: Geometry, cg: Group, d: nat, o: nat, n: nat)
    requires ValidGeometry(g)
  {
    forall e: nat, k: nat | FreeRun(g.frag, cg.free, e, k, n) && (e < d || (e == d && k < o)) ::
      WholeFree(g.frag, cg.free, e) && !WholeFree(g.frag, cg.free, d)
  }

  /** Allocates `n` fragments inside one block of the group. It fails exactly when there is no such
      run, splits a whole free block only when no partial block has one, and takes the first that serves. */
  method AllocateInGroup(g: Geometry, cg: Group, n: nat) returns (r: GroupGrant, ghost d: nat, ghost o: nat)
    requires ValidGeometry(g) && Consistent(g, cg)
    ensures r == Refused(EINVAL) <==> !(1 <= n <= g.frag)
    ensures r == Refused(ENOSPC) <==> 1 <= n <= g.frag && !HasRun(g, cg, n)
    ensures r.Granted? ==>
      && GrantAt(g, cg, r, d, o, n)
      && (WholeFree(g.frag, cg.free, d) ==> o == 0 && (n == g.frag || !HasPartialRun(g, cg, n)))
      && FirstFit(g, cg, d, o, n)
  {
    d, o := 0, 0;
    if n == 0 || n > g.frag {
      r := Refused(EINVAL);
      return;
    }
    var limit := cg.ndblk;
    if n < g.frag && cg.nffree >= n {
      r, d, o := SearchPartial(g, cg, n, limit);
      if r.Granted? {
        return;
      }
    } else {
      NoPartialRun(g, cg, n);
    }
    assert !HasPartialRun(g, cg, n);
    if cg.nbfree == 0 {
      forall d: nat, o: nat ensures !FreeRun(g.frag, cg.free, d, o, n) {
        if FreeRun(g.frag, cg.free, d, o, n) {
          RunIsCounted(g, cg, d, o, n);
        }
      }
      r := Refused(ENOSPC);
      return;
    }
    r := SearchWhole(g, cg, n, limit);
    if r.Granted? {
      d, o := r.start, 0;
    }
  }

  lemma NoPartialRun(g: Geometry, cg: Group, n: nat)
    requires ValidGeometry(g) && Consistent(g, cg) && 1 <= n <= g.frag
    requires n == g.frag || cg.nffree < n
    ensures !HasPartialRun(g, cg, n)
  {
    forall d: nat, o: nat | FreeRun(g.frag, cg.free, d, o, n)
      ensures WholeFree(g.frag, cg.free, d)
    {
      RunIsCounted(g, cg, d, o, n);
      if n == g.frag {
        WholeIsRange(g.frag, cg.free, d);
      }
    }
  }

  /** No block before `end` has a run in a partial block. */
  ghost predicate NoPartialBefore(f: nat, bits: seq<bool>, n: nat, end: nat) {
    forall d: nat, o: nat | d < end && FreeRun(f, bits, d, o, n) :: WholeFree(f, bits, d)
  }

  ghost predicate NoRunBefore(f: nat, bits: seq<bool>, n: nat, end: nat) {
    forall d: nat, o: nat | d < end :: !FreeRun(f, bits, d, o, n)
  }

  /** Blocks before the next boundary are the ones before this boundary and this one. */
  lemma NextBoundary(f: nat, e: nat, d: nat)
    requires Aligned(f, e) && Aligned(f, d) && d < e + f
    ensures d < e || d == e
  {
    if d != e { BlocksApart(f, d, e); }
  }

  /** `nextufs__block_is_free`. */
  method BlockIsFree(f: nat, free: seq<bool>, d: nat) returns (whole: bool)
    requires d + f <= |free|
    ensures whole <==> WholeFree(f, free, d)
  {
    whole := RangeFree(free, d, f);
    WholeIsRange(f, free, d);
  }

  lemma BlockBelowLimit(g: Geometry, cg: Group, d: nat)
    requires ValidGeometry(g) && Consistent(g, cg) && Aligned(g.frag, d) && d < cg.ndblk
    ensures InMap(g, cg, d)
    ensures WholeFree(g.frag, cg.free, d) ==> d + g.frag <= cg.ndblk
  {
    AlignedInMap(g, d);
    if WholeFree(g.frag, cg.free, d) {
      RunInWhole(g.frag, cg.free, d, g.frag);
      RunBelowLimit(g, cg, d, 0, g.frag);
    }
  }

  /** The scan of one block for a run of `n`. */
  method SearchBlock(g: Geometry, cg: Group, n: nat, d: nat, end: nat) returns (found: bool, start: nat)
    requires ValidGeometry(g) && Consistent(g, cg) && 1 <= n < g.frag && InMap(g, cg, d)
    requires d < end && (end == d + g.frag || end == cg.ndblk < d + g.frag)
    ensures found ==> d <= start && FreeRun(g.frag, cg.free, d, start - d, n) && start + n <= end
    ensures found ==> forall o: nat | d + o < start :: !FreeRun(g.frag, cg.free, d, o, n)
    ensures !found ==> forall o: nat :: !FreeRun(g.frag, cg.free, d, o, n)
  {
    start := d;
    while start + n <= end
      invariant d <= start
      invariant forall o: nat | d + o < start :: !FreeRun(g.frag, cg.free, d, o, n)
    {
      found := RangeFree(cg.free, start, n);
      if found {
        return;
      }
      assert !FreeRun(g.frag, cg.free, d, start - d, n);
      start := start + 1;
    }
    found := false;
    forall o: nat ensures !FreeRun(g.frag, cg.free, d, o, n) {
      if FreeRun(g.frag, cg.free, d, o, n) {
        RunBelowLimit(g, cg, d, o, n);
      }
    }
  }

  /** One block of the partial search: skip it when wholly free, else take the first run of `n`. */
  method TryPartialBlock(g: Geometry, cg: Group, n: nat, d: nat, limit: nat)
    returns (found: bool, start: nat, cg': Group)
    requires ValidGeometry(g) && Consistent(g, cg) && 1 <= n < g.frag && limit == cg.ndblk
    requires Aligned(g.frag, d) && d < limit
    ensures found ==> d <= start && !WholeFree(g.frag, cg.free, d)
    ensures found ==> GrantAt(g, cg, Granted(start, cg'), d, start - d, n)
    ensures found ==> forall o: nat | d + o < start :: !FreeRun(g.frag, cg.free, d, o, n)
    ensures !found ==> forall o: nat | FreeRun(g.frag, cg.free, d, o, n) :: WholeFree(g.frag, cg.free, d)
  {
    BlockBelowLimit(g, cg, d);
    found, start, cg' := false, d, cg;
    var end := d + g.frag;
    if end > limit {
      end := limit;
    }
    if end - d == g.frag {
      var whole := BlockIsFree(g.frag, cg.free, d);
      if whole {
        return;
      }
    }
    found, start := SearchBlock(g, cg, n, d, end);
    if found {
      cg' := TakePartial(g, cg, d, start - d, n);
    }
  }

  method SearchPartial(g: Geometry, cg: Group, n: nat, limit: nat) returns (r: GroupGrant, ghost d: nat, ghost o: nat)
    requires ValidGeometry(g) && Consistent(g, cg) && 1 <= n < g.frag && limit == cg.ndblk
    ensures r.Refused? ==> r == Refused(ENOSPC) && !HasPartialRun(g, cg, n)
    ensures r.Granted? ==> GrantAt(g, cg, r, d, o, n) && !WholeFree(g.frag, cg.free, d) && FirstFit(g, cg, d, o, n)
  {
    var localFrag := 0;
    d, o := 0, 0;
    while localFrag < limit
      invariant Aligned(g.frag, localFrag)
      invariant NoPartialBefore(g.frag, cg.free, n, localFrag)
    {
      var found, start, cg' := TryPartialBlock(g, cg, n, localFrag, limit);
      if found {
        d, o := localFrag, start - localFrag;
        r := Granted(start, cg');
        return;
      }
      PartialStep(g.frag, cg.free, n, localFrag);
      localFrag := localFrag + g.frag;
    }
    forall d: nat, o: nat | FreeRun(g.frag, cg.free, d, o, n)
      ensures WholeFree(g.frag, cg.free, d)
    {
      RunBelowLimit(g, cg, d, o, n);
    }
    r := Refused(ENOSPC);
  }

  lemma PartialStep(f: nat, bits: seq<bool>, n: nat, e: nat)
    requires Aligned(f, e) && NoPartialBefore(f, bits, n, e)
    requires forall o: nat | FreeRun(f, bits, e, o, n) :: WholeFree(f, bits, e)
    ensures Aligned(f, e + f) && NoPartialBefore(f, bits, n, e + f)
  {
    AlignedStep(f, e);
    forall d: nat, o: nat | d < e + f && FreeRun(f, bits, d, o, n)
      ensures WholeFree(f, bits, d)
    {
      NextBoundary(f, e, d);
    }
  }

  lemma RunStepBefore(f: nat, bits: seq<bool>, n: nat, e: nat)
    requires Aligned(f, e) && NoRunBefore(f, bits, n, e)
    requires forall o: nat :: !FreeRun(f, bits, e, o, n)
    ensures Aligned(f, e + f) && NoRunBefore(f, bits, n, e + f)
  {
    AlignedStep(f, e);
    forall d: nat, o: nat | d < e + f
      ensures !FreeRun(f, bits, d, o, n)
    {
      if Aligned(f, d) { NextBoundary(f, e, d); }
    }
  }

  method SearchWhole(g: Geometry, cg: Group, n: nat, limit: nat) returns (r: GroupGrant)
    requires ValidGeometry(g) && Consistent(g, cg) && 1 <= n <= g.frag && limit == cg.ndblk
    requires !HasPartialRun(g, cg, n)
    ensures r.Refused? ==> r == Refused(ENOSPC) && !HasRun(g, cg, n)
    ensures r.Granted? ==> GrantAt(g, cg, r, r.start, 0, n) && WholeFree(g.frag, cg.free, r.start) && FirstFit(g, cg, r.start, 0, n)
  {
    var localFrag := 0;
    while localFrag + g.frag <= limit
      invariant Aligned(g.frag, localFrag)
      invariant NoRunBefore(g.frag, cg.free, n, localFrag)
    {
      BlockBelowLimit(g, cg, localFrag);
      var whole := BlockIsFree(g.frag, cg.free, localFrag);
      if whole {
        RunInWhole(g.frag, cg.free, localFrag, n);
        var cg' := TakeWhole(g, cg, localFrag, n);
        r := Granted(localFrag, cg');
        return;
      }
      RunStepBefore(g.frag, cg.free, n, localFrag);
      localFrag := localFrag + g.frag;
    }
    NoRunAtAll(g, cg, n, localFrag);
    r := Refused(ENOSPC);
  }

  lemma NoRunAtAll(g: Geometry, cg: Group, n: nat, end: nat)
    requires ValidGeometry(g) && Consistent(g, cg) && 0 < n && !HasPartialRun(g, cg, n)
    requires NoRunBefore(g.frag, cg.free, n, end) && cg.ndblk < end + g.frag
    ensures !HasRun(g, cg, n)
  {
    forall d: nat, o: nat ensures !FreeRun(g.frag, cg.free, d, o, n) {
      if FreeRun(g.frag, cg.free, d, o, n) {
        RunInWhole(g.frag, cg.free, d, g.frag);
        RunBelowLimit(g, cg, d, 0, g.frag);
      }
    }
  }

  // ----- extending a fragment run in place -----

  datatype GroupUpdate = Updated(cg: Group) | Failed(error: Error)

  /** Grows the used run at offset `o` of the block at `d` from `oldFrags` to `newFrags` fragments. It
      fails with ENOSPC exactly when the run would leave its block or a wanted fragment is in use. */
  method ExtendRun(g: Geometry, cg: Group, d: nat, o: nat, oldFrags: nat, newFrags: nat) returns (r: GroupUpdate)
    requires ValidGeometry(g) && Consistent(g, cg) && InMap(g, cg, d)
    requires 0 < oldFrags && o + oldFrags <= g.frag && RangeIs(cg.free, d + o, oldFrags, false)
    ensures r == Failed(EINVAL) <==> newFrags <= oldFrags || newFrags > g.frag
    ensures r == Failed(ENOSPC) <==>
      && oldFrags < newFrags <= g.frag
      && !FreeRun(g.frag, cg.free, d, o + oldFrags, newFrags - oldFrags)
    ensures r.Updated? ==>
      && Took(g, cg, r.cg, d + o + oldFrags, newFrags - oldFrags)
      && r.cg.nbfree == cg.nbfree && r.cg.nffree == cg.nffree - (newFrags - oldFrags) && r.cg.rotor == cg.rotor
  {
    if newFrags <= oldFrags || newFrags > g.frag {
      return Failed(EINVAL);
    }
    if o + newFrags > g.frag {
      return Failed(ENOSPC);
    }
    var added := newFrags - oldFrags;
    var free := RangeFree(cg.free, d + o + oldFrags, added);
    if !free {
      return Failed(ENOSPC);
    }
    assert !BlockBits(cg.free, g.frag, d)[o];
    var cg' := TakePartial(g, cg, d, o + oldFrags, added);
    return Updated(cg');
  }

  // ----- freeing -----

  /** Sets a range of bits, stopping at the first one that is already set. */
  method FreeRange(bits: seq<bool>, s: nat, n: nat) returns (ok: bool, out: seq<bool>)
    requires s + n <= |bits|
    ensures ok <==> RangeIs(bits, s, n, false)
    ensures ok ==> out == WithRange(bits, s, n, true)
  {
    out := bits;
    for i := 0 to n
      invariant out == WithRange(bits, s, i, true)
      invariant RangeIs(bits, s, i, false)
    {
      if out[s + i] {
        assert bits[s + i];
        return false, out;
      }
      out := out[s + i := true];
    }
    return true, out;
  }

  /** Frees `n` fragments at offset `o` of the block at `d`. A fragment that is already free is an
      error. The source does not check that the run stays inside one block: its callers must. */
  method FreeRunInGroup(g: Geometry, cg: Group, d: nat, o: nat, n: nat)
    returns (r: GroupUpdate, dWhole: int, dLoose: int)
    requires ValidGeometry(g) && Consistent(g, cg) && InMap(g, cg, d)
    requires o + n <= g.frag && d + o + n <= cg.ndblk
    ensures r.Failed? <==> n == 0 || !RangeIs(cg.free, d + o, n, false)
    ensures r.Failed? ==> r == Failed(EINVAL)
    ensures r.Updated? ==>
      && Consistent(g, r.cg) && r.cg.ndblk == cg.ndblk && r.cg.rotor == cg.rotor
      && r.cg.free == WithRange(cg.free, d + o, n, true)
      && r.cg.nbfree == cg.nbfree + dWhole && r.cg.nffree == cg.nffree + dLoose
      && dWhole == (if WholeFree(g.frag, r.cg.free, d) then 1 else 0)
      && dLoose == n - g.frag * dWhole
  {
    dWhole, dLoose := 0, n;
    if n == 0 || n > g.frag {
      r := Failed(EINVAL);
      return;
    }
    var ok, free := FreeRange(cg.free, d + o, n);
    if !ok {
      r := Failed(EINVAL);
      return;
    }
    var frsum := MoveFrsum(cg.frsum, cg.free, free, d, g.frag);
    var cg' := cg.(free := free, frsum := frsum);
    assert FrsumMoved(g, cg, cg', d);
    cg', dWhole, dLoose := CountRelease(g, cg, cg', d, o, n);
    r := Updated(cg');
  }

  /** The counter half of a release: `cg1` already holds the new bitmap and run counts. */
  method CountRelease(g: Geometry, ghost cg: Group, cg1: Group, d: nat, ghost o: nat, n: nat)
    returns (cg': Group, dWhole: int, dLoose: int)
    requires ValidGeometry(g) && CountersExact(g, cg) && WellShaped(g, cg1)
    requires InMap(g, cg, d) && d < g.fpg && 0 < n && o + n <= g.frag
    requires RangeIs(cg.free, d + o, n, false) && cg1.free == WithRange(cg.free, d + o, n, true)
    requires FrsumMoved(g, cg, cg1, d) && cg1 == cg.(free := cg1.free, frsum := cg1.frsum)
    ensures CountersExact(g, cg')
    ensures cg'.free == cg1.free && cg'.ndblk == cg.ndblk && cg'.rotor == cg.rotor
    ensures cg'.nbfree == cg.nbfree + dWhole && cg'.nffree == cg.nffree + dLoose
    ensures dWhole == (if WholeFree(g.frag, cg'.free, d) then 1 else 0)
    ensures dLoose == n - g.frag * dWhole
  {
    dWhole, dLoose := 0, n;
    FreeInBlock(g.frag, cg.free, d, o, n);
    var whole := BlockIsFree(g.frag, cg1.free, d);
    if whole {
      var btot, bpos := BumpTables(g, cg1.btot, cg1.bpos, d, 1);
      cg' := cg1.(nffree := cg1.nffree + n - g.frag, nbfree := cg1.nbfree + 1, btot := btot, bpos := bpos);
      dWhole, dLoose := 1, n - g.frag;
    } else {
      cg' := cg1.(nffree := cg1.nffree + n);
    }
    FieldsEdited(g, cg, cg', d, dWhole, dLoose);
  }
}
