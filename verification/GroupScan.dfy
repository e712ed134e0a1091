/** Whole-group constructions, one block at a time: the formatter's `initcg` and fsck's from-scratch
    recount in pass 5. */
module GroupScan {
  import opened GroupSpec
  import opened Runs
  import opened CylinderGroup
  import opened GroupBuild
  import FragAcct

  /** A block that had no free fragment is filled in and counted from scratch. */
  lemma BlockFilled(g: Geometry, was: Group, now: Group, d: nat)
    requires ValidGeometry(g) && CountersExact(g, was) && WellShaped(g, now) && InMap(g, was, d) && d < g.fpg
    requires SameOutside(g.frag, was.free, now.free, d) && RangeIs(was.free, d, g.frag, false)
    requires var blk := BlockBits(now.free, g.frag, d);
      && now.nbfree == was.nbfree + Whole(blk) && now.nffree == was.nffree + Loose(blk)
      && (forall k | 1 <= k < g.frag :: now.frsum[k] == was.frsum[k] + RunCount(blk, k))
      && TablesMoved(g, was, now, d, Whole(blk))
    ensures CountersExact(g, now)
  {
    var old_, blk := BlockBits(was.free, g.frag, d), BlockBits(now.free, g.frag, d);
    EmptyBlock(was.free, g.frag, d);
    FieldsEdited(g, was, now, d, Whole(blk), Loose(blk));
  }

  lemma EmptyBlock(bits: seq<bool>, f: nat, d: nat)
    requires 0 < f && d + f <= |bits| && RangeIs(bits, d, f, false)
    ensures Whole(BlockBits(bits, f, d)) == 0 && Loose(BlockBits(bits, f, d)) == 0
    ensures forall k | 1 <= k < f :: RunCount(BlockBits(bits, f, d), k) == 0
  {
    var blk := BlockBits(bits, f, d);
    forall i | 0 <= i < f ensures !blk[i] { assert blk[i] == bits[d + i]; }
    NoFreeNoCount(blk);
    forall k | 1 <= k < f ensures RunCount(blk, k) == 0 {
      forall i | 0 <= i < f ensures !IsRun(blk, i, k) { assert !blk[i]; }
      RunsBeforeFlat(blk, k, 0, f);
    }
  }

  // ----- fsck pass 5 -----

  /** The bitmap fsck builds: free means not claimed by any inode. */
  predicate MapFrom(free: seq<bool>, used: seq<bool>) {
    |used| <= |free| && forall i | 0 <= i < |free| :: free[i] <==> i < |used| && !used[i]
  }

  /** `MapFrom` for the first `n` fragments only; the rest is still clear. */
  predicate MapUpTo(free: seq<bool>, used: seq<bool>, n: nat) {
    n <= |used| <= |free| && forall i | 0 <= i < |free| :: free[i] <==> i < n && !used[i]
  }

  /** Sets the bits of the unclaimed fragments in `[s, s+n)` and counts them. */
  method MarkFree(free: seq<bool>, used: seq<bool>, s: nat, n: nat) returns (out: seq<bool>, frags: nat)
    requires MapUpTo(free, used, s) && s + n <= |used|
    ensures MapUpTo(out, used, s + n) && |out| == |free|
    ensures frags == CountFree(out[s..s + n])
  {
    out, frags := free, 0;
    for j := 0 to n
      invariant |out| == |free| && MapUpTo(out, used, s + j)
      invariant frags == CountFree(out[s..s + j])
    {
      CountNext(out, s, j, !used[s + j]);
      if !used[s + j] {
        out := out[s + j := true];
        frags := frags + 1;
      }
    }
  }

  /** Writing the next, still clear, fragment of a stretch. */
  lemma CountNext(bits: seq<bool>, s: nat, j: nat, v: bool)
    requires s + j < |bits| && !bits[s + j]
    ensures CountFree(bits[s + j := v][s..s + j + 1]) == CountFree(bits[s..s + j]) + Indicator(v)
    ensures bits[s + j := false] == bits
  {
    var next := bits[s + j := v][s..s + j + 1];
    assert next[..j] == bits[s..s + j];
  }

  /** Counts one whole block that has just been filled in. */
  method CountBlock(g: Geometry, ghost was: Group, cg: Group, d: nat, frags: nat) returns (cg': Group)
    requires ValidGeometry(g) && CountersExact(g, was) && InMap(g, was, d) && d < g.fpg
    requires cg == was.(free := cg.free) && |cg.free| == |was.free|
    requires SameOutside(g.frag, was.free, cg.free, d) && RangeIs(was.free, d, g.frag, false)
    requires frags == CountFree(BlockBits(cg.free, g.frag, d))
    ensures CountersExact(g, cg') && cg'.free == cg.free && cg'.ndblk == cg.ndblk
  {
    var blk := BlockBits(cg.free, g.frag, d);
    cg' := cg;
    if frags == g.frag {
      var btot, bpos := BumpTables(g, cg.btot, cg.bpos, d, 1);
      cg' := cg.(nbfree := cg.nbfree + 1, btot := btot, bpos := bpos);
      forall k | 1 <= k < g.frag ensures RunCount(blk, k) == 0 { AllFreeHasNoShortRun(blk, k); }
    } else if frags > 0 {
      var frsum := FragAcct.Account(blk, cg.frsum);
      cg' := cg.(nffree := cg.nffree + frags, frsum := frsum);
    } else {
      NoCountNoFree(blk);
      forall k | 1 <= k < g.frag ensures RunCount(blk, k) == 0 {
        forall i | 0 <= i < g.frag ensures !IsRun(blk, i, k) { assert !blk[i]; }
        RunsBeforeFlat(blk, k, 0, g.frag);
      }
    }
    BlockFilled(g, was, cg', d);
  }

  lemma {:induction false} NoCountNoFree(blk: seq<bool>)
    requires CountFree(blk) == 0
    ensures forall i | 0 <= i < |blk| :: !blk[i]
  {
    if |blk| > 0 {
      NoCountNoFree(blk[..|blk| - 1]);
    }
  }

  /** Pass 5 rebuilds a group from the claim map: `used[i]` says that some inode claims fragment `i`.
      The result satisfies the invariant the allocator maintains, for every group length, including
      one that ends inside a block. */
  method Recount(g: Geometry, used: seq<bool>) returns (cg: Group)
    requires ValidGeometry(g) && |used| <= g.fpg
    ensures Consistent(g, cg) && cg.ndblk == |used| && MapFrom(cg.free, used)
  {
    cg := ZeroGroup(g, |used|);
    ZeroExact(g, |used|);
    var d := 0;
    while d + g.frag <= |used|
      invariant RecountedTo(g, cg, used, d)
    {
      cg := RecountBlock(g, cg, used, d);
      d := d + g.frag;
    }
    if d < |used| {
      cg := RecountTail(g, cg, used, d);
    }
  }

  method RecountTail(g: Geometry, cg: Group, used: seq<bool>, d: nat) returns (cg': Group)
    requires ValidGeometry(g) && RecountedTo(g, cg, used, d) && d < |used| < d + g.frag
    ensures CountersExact(g, cg') && cg'.ndblk == |used| && MapUpTo(cg'.free, used, |used|)
  {
    AlignedInMap(g, d);
    var free, frags := MarkFree(cg.free, used, d, |used| - d);
    cg' := CountTail(g, cg, cg.(free := free), d, frags);
  }

  ghost predicate RecountedTo(g: Geometry, cg: Group, used: seq<bool>, d: nat)
    requires ValidGeometry(g)
  {
    && Aligned(g.frag, d) && d <= |used| <= g.fpg
    && CountersExact(g, cg) && cg.ndblk == |used| && MapUpTo(cg.free, used, d)
  }

  method RecountBlock(g: Geometry, cg: Group, used: seq<bool>, d: nat) returns (cg': Group)
    requires ValidGeometry(g) && RecountedTo(g, cg, used, d) && d + g.frag <= |used|
    ensures RecountedTo(g, cg', used, d + g.frag)
  {
    AlignedInMap(g, d);
    AlignedStep(g.frag, d);
    var free, frags := MarkFree(cg.free, used, d, g.frag);
    cg' := CountBlock(g, cg, cg.(free := free), d, frags);
  }

  /** Counts the partial block that ends the group. */
  method CountTail(g: Geometry, ghost was: Group, cg: Group, d: nat, frags: nat) returns (cg': Group)
    requires ValidGeometry(g) && CountersExact(g, was) && InMap(g, was, d) && d < g.fpg
    requires cg == was.(free := cg.free) && |cg.free| == |was.free|
    requires SameOutside(g.frag, was.free, cg.free, d) && RangeIs(was.free, d, g.frag, false)
    requires d < cg.ndblk < d + g.frag && !cg.free[d + g.frag - 1]
    requires frags == CountFree(cg.free[d..cg.ndblk]) && RangeIs(cg.free, cg.ndblk, d + g.frag - cg.ndblk, false)
    ensures CountersExact(g, cg') && cg'.free == cg.free && cg'.ndblk == cg.ndblk
  {
    var blk := BlockBits(cg.free, g.frag, d);
    ghost var head, tail := cg.free[d..cg.ndblk], cg.free[cg.ndblk..d + g.frag];
    assert blk == head + tail;
    CountSplit(head, tail);
    NoFreeNoCount(tail);
    assert !blk[g.frag - 1];
    var frsum := FragAcct.Account(blk, cg.frsum);
    cg' := cg.(nffree := cg.nffree + frags, frsum := frsum);
    BlockFilled(g, was, cg', d);
  }

  /** fsck and the allocator agree: on a consistent group whose used fragments are exactly the claimed
      ones, the recount reproduces every summary, so pass 5 finds nothing to correct. */
  lemma RecountAgrees(g: Geometry, cg: Group, fresh_: Group, used: seq<bool>)
    requires ValidGeometry(g) && Consistent(g, cg) && Consistent(g, fresh_)
    requires MapFrom(fresh_.free, used) && MapFrom(cg.free, used) && cg.ndblk == fresh_.ndblk == |used|
    ensures fresh_ == cg.(rotor := fresh_.rotor)
  {
    assert cg.free == fresh_.free by {
      forall i | 0 <= i < |cg.free| ensures cg.free[i] == fresh_.free[i] {}
    }
    SummariesDetermined(g, cg, fresh_);
  }

  // ----- the formatter -----

  /** The bitmap built so far, with everything from `n` on still clear. */
  ghost function View(cg: Group, n: nat): Group
    requires n <= |cg.free|
  {
    cg.(free := cg.free[..n] + seq(|cg.free| - n, _ => false))
  }

  /** `clrblock` on stale contents. */
  method ClearBlock(g: Geometry, cg: Group, d: nat) returns (cg': Group)
    requires ValidGeometry(g) && d + g.frag <= |cg.free|
    ensures cg' == cg.(free := WithRange(cg.free, d, g.frag, false))
    ensures View(cg', d + g.frag) == View(cg, d)
  {
    cg' := cg.(free := WithRange(cg.free, d, g.frag, false));
    assert View(cg', d + g.frag).free == View(cg, d).free;
  }

  /** `setblock` plus the whole-block counters. */
  method SetBlock(g: Geometry, cg: Group, d: nat) returns (cg': Group)
    requires ValidGeometry(g) && d + g.frag <= |cg.free| && CountersExact(g, View(cg, d)) && InMap(g, cg, d) && d < g.fpg
    ensures cg'.free == WithRange(cg.free, d, g.frag, true) && cg'.ndblk == cg.ndblk
    ensures CountersExact(g, View(cg', d + g.frag))
  {
    var btot, bpos := BumpTables(g, cg.btot, cg.bpos, d, 1);
    cg' := cg.(free := WithRange(cg.free, d, g.frag, true), nbfree := cg.nbfree + 1, btot := btot, bpos := bpos);
    ghost var was, now := View(cg, d), View(cg', d + g.frag);
    ghost var blk := BlockBits(now.free, g.frag, d);
    assert AllFree(blk);
    forall k | 1 <= k < g.frag ensures RunCount(blk, k) == 0 { AllFreeHasNoShortRun(blk, k); }
    BlockFilled(g, was, now, d);
  }

  /** A block that holds a single run at one of its ends. */
  lemma RunBlock(blk: seq<bool>, o: nat, n: nat)
    requires 0 < n < |blk| && (o == 0 || o + n == |blk|) && o + n <= |blk|
    requires blk == WithRange(seq(|blk|, _ => false), o, n, true)
    ensures Whole(blk) == 0 && Loose(blk) == n
    ensures forall k | 1 <= k < |blk| :: RunCount(blk, k) == Indicator(k == n)
  {
    CountFilled(|blk|, o, n);
    assert !blk[if o == 0 then n else 0];
    forall k | 1 <= k < |blk| ensures RunCount(blk, k) == Indicator(k == n) {
      if o == 0 { PrefixRuns(blk, n, k); } else { SuffixRuns(blk, o, k); }
    }
  }

  /** A single run at one end of an empty block is counted. */
  lemma RunFilled(g: Geometry, was: Group, now: Group, d: nat, o: nat, n: nat)
    requires ValidGeometry(g) && CountersExact(g, was) && InMap(g, was, d) && d < g.fpg
    requires 0 < n < g.frag && (o == 0 || o + n == g.frag) && o + n <= g.frag && RangeIs(was.free, d, g.frag, false)
    requires now == was.(free := WithRange(was.free, d + o, n, true), nffree := was.nffree + n,
                         frsum := was.frsum[n := was.frsum[n] + 1])
    ensures CountersExact(g, now)
  {
    RangeInBlock(was.free, g.frag, d, o, n, true);
    EmptyIsZeros(was.free, g.frag, d);
    RunBlock(BlockBits(now.free, g.frag, d), o, n);
    BlockFilled(g, was, now, d);
  }

  lemma EmptyIsZeros(bits: seq<bool>, f: nat, d: nat)
    requires d + f <= |bits| && RangeIs(bits, d, f, false)
    ensures BlockBits(bits, f, d) == seq(f, _ => false)
  {
    var blk := BlockBits(bits, f, d);
    forall i | 0 <= i < f ensures !blk[i] { assert blk[i] == bits[d + i]; }
  }

  lemma CountFilled(f: nat, o: nat, n: nat)
    requires o + n <= f
    ensures CountFree(WithRange(seq(f, _ => false), o, n, true)) == n
  {
    var z := seq(f, _ => false);
    var blk := WithRange(z, o, n, true);
    CountRange(blk, o, n);
    assert WithRange(blk, o, n, false) == z;
    NoFreeNoCount(z);
  }

  /** The loose fragments before the first whole data block. */
  method SetHead(g: Geometry, cg: Group, d: nat, from: nat) returns (cg': Group)
    requires ValidGeometry(g) && InMap(g, cg, d) && d < g.fpg && d < from < d + g.frag
    requires CountersExact(g, View(cg, d + g.frag)) && RangeIs(cg.free, d, g.frag, false)
    ensures cg'.free == WithRange(cg.free, from, d + g.frag - from, true) && cg'.ndblk == cg.ndblk
    ensures CountersExact(g, View(cg', d + g.frag))
  {
    var n := d + g.frag - from;
    cg' := cg.(frsum := cg.frsum[n := cg.frsum[n] + 1]);
    var ok, free := FreeRange(cg.free, from, n);
    assert ok;
    cg' := cg'.(free := free, nffree := cg.nffree + n);
    ghost var was, now := View(cg, d + g.frag), View(cg', d + g.frag);
    ViewRange(cg, free, d + g.frag, from, n);
    ViewClear(cg, d, g.frag);
    RunFilled(g, was, now, d, from - d, n);
  }

  lemma ViewClear(cg: Group, d: nat, f: nat)
    requires d + f <= |cg.free| && RangeIs(cg.free, d, f, false)
    ensures RangeIs(View(cg, d + f).free, d, f, false)
  {
  }

  /** Editing the part of the bitmap that is already built edits the view. */
  lemma ViewRange(cg: Group, free: seq<bool>, end: nat, s: nat, n: nat)
    requires s + n <= end <= |cg.free| && free == WithRange(cg.free, s, n, true)
    ensures View(cg.(free := free), end).free == WithRange(View(cg, end).free, s, n, true)
  {
    var l, r := View(cg.(free := free), end).free, WithRange(View(cg, end).free, s, n, true);
    forall i | 0 <= i < |l| ensures l[i] == r[i] {}
  }

  /** The loose fragments of a partial last block. */
  method SetTail(g: Geometry, cg: Group, d: nat, end: nat) returns (cg': Group)
    requires ValidGeometry(g) && InMap(g, cg, d) && d < g.fpg && d < end < d + g.frag
    requires CountersExact(g, View(cg, d))
    ensures cg'.free == WithRange(WithRange(cg.free, d, end - d, true), end, d + g.frag - end, false) && cg'.ndblk == cg.ndblk
    ensures CountersExact(g, View(cg', d + g.frag))
  {
    var n := end - d;
    cg' := cg.(frsum := cg.frsum[n := cg.frsum[n] + 1]);
    var free := WithRange(WithRange(cg.free, d, n, true), end, d + g.frag - end, false);
    cg' := cg'.(free := free, nffree := cg.nffree + n);
    TailView(cg, cg', d, end, g.frag);
    RunFilled(g, View(cg, d), View(cg', d + g.frag), d, 0, n);
  }

  lemma TailView(cg: Group, cg': Group, d: nat, end: nat, f: nat)
    requires d <= end <= d + f <= |cg.free|
    requires cg'.free == WithRange(WithRange(cg.free, d, end - d, true), end, d + f - end, false)
    ensures View(cg', d + f).free == WithRange(View(cg, d).free, d, end - d, true)
  {
    var l, r := View(cg', d + f).free, WithRange(View(cg, d).free, d, end - d, true);
    forall i | 0 <= i < |r| ensures l[i] == r[i] {}
  }

  /** What `initcg` makes of group contents: fragments below `dlower` are free except in group zero,
      the metadata area up to `data` is used, and everything from there to the end is free. */
  predicate InitialMap(free: seq<bool>, first: bool, dlower: nat, data: nat, ndblk: nat) {
    forall i | 0 <= i < |free| :: free[i] == InitiallyFree(first, dlower, data, ndblk, i)
  }

  predicate InitiallyFree(first: bool, dlower: nat, data: nat, ndblk: nat, i: nat) {
    (!first && i < dlower) || data <= i < ndblk
  }

  /** `initcg` has dealt with the fragments below `d`. */
  ghost predicate Built(g: Geometry, cg: Group, first: bool, dlower: nat, data: nat, ndblk: nat, d: nat)
    requires ValidGeometry(g)
  {
    && |cg.free| == MapLen(g) && cg.ndblk == ndblk && Aligned(g.frag, d) && d <= |cg.free|
    && CountersExact(g, View(cg, d))
    && forall i | 0 <= i < d :: cg.free[i] == InitiallyFree(first, dlower, data, ndblk, i)
  }

  /** The next block is wholly free or wholly used. */
  method BuildBlock(g: Geometry, cg: Group, ghost first: bool, ghost dlower: nat, ghost data: nat, ghost ndblk: nat, d: nat, free: bool)
    returns (cg': Group)
    requires ValidGeometry(g) && Built(g, cg, first, dlower, data, ndblk, d) && d < g.fpg
    requires forall i | d <= i < d + g.frag :: free == InitiallyFree(first, dlower, data, ndblk, i)
    ensures Built(g, cg', first, dlower, data, ndblk, d + g.frag)
  {
    AlignedInMap(g, d);
    AlignedStep(g.frag, d);
    if free {
      cg' := SetBlock(g, cg, d);
    } else {
      cg' := ClearBlock(g, cg, d);
    }
  }

  /** The metadata block that `data` splits: cleared first, then its tail is set. */
  method BuildHead(g: Geometry, cg: Group, ghost first: bool, ghost dlower: nat, data: nat, ghost ndblk: nat, d: nat)
    returns (cg': Group)
    requires ValidGeometry(g) && Built(g, cg, first, dlower, data, ndblk, d) && d < g.fpg
    requires dlower <= d < data < d + g.frag <= ndblk
    ensures Built(g, cg', first, dlower, data, ndblk, d + g.frag)
  {
    AlignedInMap(g, d);
    AlignedStep(g.frag, d);
    var cleared := ClearBlock(g, cg, d);
    cg' := SetHead(g, cleared, d, data);
  }

  method BuildTail(g: Geometry, cg: Group, ghost first: bool, ghost dlower: nat, ghost data: nat, ndblk: nat, d: nat)
    returns (cg': Group)
    requires ValidGeometry(g) && Built(g, cg, first, dlower, data, ndblk, d) && d < g.fpg
    requires dlower <= d && data <= d < ndblk < d + g.frag
    ensures Built(g, cg', first, dlower, data, ndblk, d + g.frag)
  {
    AlignedInMap(g, d);
    AlignedStep(g.frag, d);
    cg' := SetTail(g, cg, d, ndblk);
  }

  /** `initcg`, over a bitmap with stale contents. `data` is `dupper`, raised in group zero by the
      cylinder summary area. The geometry checks made before formatting supply the requirements. The
      source clears every metadata block before it sets the loose fragments of the last one; here that
      block is cleared when its turn comes. */
  method InitGroup(g: Geometry, first: bool, stale: seq<bool>, ndblk: nat, dlower: nat, data: nat) returns (cg: Group)
    requires ValidGeometry(g) && |stale| == MapLen(g) && ndblk <= g.fpg
    requires Aligned(g.frag, dlower) && dlower <= data && RoundUp(g.frag, data) <= ndblk
    ensures Consistent(g, cg) && cg.ndblk == ndblk && |cg.free| == MapLen(g)
    ensures InitialMap(cg.free, first, dlower, data, ndblk)
  {
    cg := ZeroGroup(g, ndblk).(free := stale);
    ZeroExact(g, ndblk);
    assert View(cg, 0) == ZeroGroup(g, ndblk);
    cg := InitLow(g, cg, first, dlower, data, ndblk);
    var d: nat;
    cg, d := InitMetadata(g, cg, first, dlower, data, ndblk);
    cg, d := InitData(g, cg, first, dlower, data, ndblk, d);
    while d < |cg.free|
      invariant Built(g, cg, first, dlower, data, ndblk, d) && ndblk <= d
    {
      AlignedInMap(g, d);
      cg := BuildBlock(g, cg, first, dlower, data, ndblk, d, false);
      d := d + g.frag;
    }
    assert View(cg, d).free == cg.free;
  }

  method InitLow(g: Geometry, cg0: Group, first: bool, dlower: nat, ghost data: nat, ghost ndblk: nat) returns (cg: Group)
    requires ValidGeometry(g) && Built(g, cg0, first, dlower, data, ndblk, 0)
    requires Aligned(g.frag, dlower) && dlower <= data && dlower <= ndblk <= g.fpg
    ensures Built(g, cg, first, dlower, data, ndblk, dlower)
  {
    cg := cg0;
    var d: nat := 0;
    while d < dlower
      invariant Built(g, cg, first, dlower, data, ndblk, d) && d <= dlower
    {
      BlocksApart(g.frag, d, dlower);
      cg := BuildBlock(g, cg, first, dlower, data, ndblk, d, !first);
      d := d + g.frag;
    }
  }

  method InitMetadata(g: Geometry, cg0: Group, ghost first: bool, dlower: nat, data: nat, ghost ndblk: nat) returns (cg: Group, d: nat)
    requires ValidGeometry(g) && Built(g, cg0, first, dlower, data, ndblk, dlower)
    requires dlower <= data && RoundUp(g.frag, data) <= ndblk <= g.fpg
    ensures Built(g, cg, first, dlower, data, ndblk, d) && data <= d <= ndblk && dlower <= d
  {
    cg, d := cg0, dlower;
    ghost var top := RoundUp(g.frag, data);
    while d < data
      invariant Built(g, cg, first, dlower, data, ndblk, d) && dlower <= d <= top
    {
      BlocksApart(g.frag, d, top);
      if d + g.frag <= data {
        cg := BuildBlock(g, cg, first, dlower, data, ndblk, d, false);
      } else {
        cg := BuildHead(g, cg, first, dlower, data, ndblk, d);
      }
      d := d + g.frag;
    }
  }

  method InitData(g: Geometry, cg0: Group, ghost first: bool, ghost dlower: nat, ghost data: nat, ndblk: nat, d0: nat) returns (cg: Group, d: nat)
    requires ValidGeometry(g) && Built(g, cg0, first, dlower, data, ndblk, d0)
    requires dlower <= d0 && data <= d0 <= ndblk <= g.fpg
    ensures Built(g, cg, first, dlower, data, ndblk, d) && ndblk <= d && dlower <= d
  {
    cg, d := cg0, d0;
    while d + g.frag <= ndblk
      invariant Built(g, cg, first, dlower, data, ndblk, d) && d0 <= d <= ndblk
    {
      cg := BuildBlock(g, cg, first, dlower, data, ndblk, d, true);
      d := d + g.frag;
    }
    if d < ndblk {
      cg := BuildTail(g, cg, first, dlower, data, ndblk, d);
      d := d + g.frag;
    }
  }
}
