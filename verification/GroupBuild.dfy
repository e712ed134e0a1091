/** The resizer's writers of cylinder groups: range updates, the expanded last group, new groups and the
    summary reservation. Each establishes or keeps the invariant that the allocator maintains. */
module GroupBuild {
  import opened GroupSpec
  import opened Runs
  import opened CylinderGroup

  /** The block that holds fragment `s`. */
  method BaseOf(f: nat, s: nat) returns (base: nat)
    requires BlockSize(f)
    ensures Aligned(f, base) && base <= s < base + f
  {
    base := s - s % f;
  }

  /** `count_free_bits` over one block. */
  method CountFreeBits(free: seq<bool>, d: nat, f: nat) returns (total: nat)
    requires d + f <= |free|
    ensures total == CountFree(BlockBits(free, f, d))
  {
    ghost var blk := BlockBits(free, f, d);
    total := 0;
    for i := 0 to f
      invariant total == CountFree(blk[..i])
    {
      assert blk[..i + 1][..i] == blk[..i];
      if free[d + i] {
        total := total + 1;
      }
    }
    assert blk[..f] == blk;
  }

  /** A group whose two totals still have to be raised by `dWhole` and `dLoose`: the resizer edits the
      rest of the buffer first and adds the deltas at the end. */
  function Settled(cg: Group, dWhole: int, dLoose: int): Group {
    cg.(nbfree := cg.nbfree + dWhole, nffree := cg.nffree + dLoose)
  }

  datatype RangeUpdate = Ranged(cg: Group, dWhole: int, dLoose: int) | RangeFailed(error: Error)

  /** Flipping `[s, s+a)` and then `[s+a, s+a+b)`. */
  lemma RangeJoin(bits: seq<bool>, s: nat, a: nat, b: nat, v: bool)
    requires s + a + b <= |bits| && RangeIs(bits, s, a, !v)
    ensures RangeIs(WithRange(bits, s, a, v), s + a, b, !v) <==> RangeIs(bits, s + a, b, !v)
    ensures RangeIs(bits, s, a + b, !v) <==> RangeIs(bits, s + a, b, !v)
    ensures WithRange(WithRange(bits, s, a, v), s + a, b, v) == WithRange(bits, s, a + b, v)
  {
    var mid := WithRange(bits, s, a, v);
    forall i | s + a <= i < s + a + b ensures mid[i] == bits[i] {}
    var l, r := WithRange(mid, s + a, b, v), WithRange(bits, s, a + b, v);
    forall i | 0 <= i < |bits| ensures l[i] == r[i] {}
  }

  /** A prefix of a range that fails makes the range fail. */
  lemma RangeFailsEarly(bits: seq<bool>, s: nat, n: nat, m: nat, v: bool)
    requires n <= m && s + m <= |bits| && !RangeIs(bits, s, n, v)
    ensures !RangeIs(bits, s, m, v)
  {
  }

  /** The state of a range update that has flipped `n` fragments from `start` on to `v`. */
  ghost predicate FlippedSoFar(g: Geometry, cg: Group, u: RangeUpdate, start: nat, n: nat, v: bool)
    requires ValidGeometry(g)
  {
    && u.Ranged? && start + n <= |cg.free|
    && RangeIs(cg.free, start, n, !v)
    && CountersExact(g, Settled(u.cg, u.dWhole, u.dLoose))
    && u.cg.free == WithRange(cg.free, start, n, v)
    && u.cg.nbfree == cg.nbfree && u.cg.nffree == cg.nffree && u.cg.ndblk == cg.ndblk
  }

  /** A flip starts with nothing flipped. */
  lemma FlipStart(g: Geometry, cg: Group, start: nat, v: bool)
    requires ValidGeometry(g) && CountersExact(g, cg) && start <= |cg.free|
    ensures FlippedSoFar(g, cg, Ranged(cg, 0, 0), start, 0, v)
  {
    assert Settled(cg, 0, 0) == cg;
    assert WithRange(cg.free, start, 0, v) == cg.free;
  }

  /** Freeing part of a block, with the block moved to the whole totals when that completes it. */
  lemma BlockReleased(g: Geometry, was: Group, now: Group, d: nat, o: nat, n: nat)
    requires ValidGeometry(g) && CountersExact(g, was) && WellShaped(g, now) && InMap(g, was, d) && d < g.fpg
    requires 0 < n && o + n <= g.frag && RangeIs(was.free, d + o, n, false)
    requires now.free == WithRange(was.free, d + o, n, true) && FrsumMoved(g, was, now, d)
    requires if CountFree(BlockBits(now.free, g.frag, d)) == g.frag then
               now.nbfree == was.nbfree + 1 && now.nffree == was.nffree + n - g.frag && TablesMoved(g, was, now, d, 1)
             else
               now.nbfree == was.nbfree && now.nffree == was.nffree + n && TablesMoved(g, was, now, d, 0)
    ensures CountersExact(g, now)
  {
    FreeInBlock(g.frag, was.free, d, o, n);
    FieldsEdited(g, was, now, d, now.nbfree - was.nbfree, now.nffree - was.nffree);
  }

  /** Taking part of a block, whole or partial. */
  lemma BlockReserved(g: Geometry, was: Group, now: Group, d: nat, o: nat, n: nat)
    requires ValidGeometry(g) && CountersExact(g, was) && WellShaped(g, now) && InMap(g, was, d) && d < g.fpg
    requires 0 < n && o + n <= g.frag && RangeIs(was.free, d + o, n, true)
    requires now.free == WithRange(was.free, d + o, n, false) && FrsumMoved(g, was, now, d)
    requires if CountFree(BlockBits(was.free, g.frag, d)) == g.frag then
               now.nbfree == was.nbfree - 1 && now.nffree == was.nffree + g.frag - n && TablesMoved(g, was, now, d, -1)
             else
               now.nbfree == was.nbfree && now.nffree == was.nffree - n && TablesMoved(g, was, now, d, 0)
    ensures CountersExact(g, now)
  {
    TakeInBlock(g.frag, was.free, d, o, n);
    FieldsEdited(g, was, now, d, now.nbfree - was.nbfree, now.nffree - was.nffree);
  }

  /** One block's step of `add_free_frag_range`: frees `n` used fragments at offset `o`. */
  method AddInBlock(g: Geometry, cg: Group, dWhole: int, dLoose: int, d: nat, o: nat, n: nat) returns (r: RangeUpdate)
    requires ValidGeometry(g) && CountersExact(g, Settled(cg, dWhole, dLoose)) && InMap(g, cg, d) && d < g.fpg
    requires 0 < n && o + n <= g.frag
    ensures r.RangeFailed? <==> !RangeIs(cg.free, d + o, n, false)
    ensures r.RangeFailed? ==> r == RangeFailed(EINVAL)
    ensures r.Ranged? ==>
      && CountersExact(g, Settled(r.cg, r.dWhole, r.dLoose))
      && r.cg.free == WithRange(cg.free, d + o, n, true)
      && r.cg.nbfree == cg.nbfree && r.cg.nffree == cg.nffree && r.cg.ndblk == cg.ndblk
  {
    var ok, free := FreeRange(cg.free, d + o, n);
    if !ok {
      return RangeFailed(EINVAL);
    }
    var frsum := MoveFrsum(cg.frsum, cg.free, free, d, g.frag);
    var cg' := cg.(free := free, frsum := frsum);
    var total := CountFreeBits(free, d, g.frag);
    if total == g.frag {
      var btot, bpos := BumpTables(g, cg.btot, cg.bpos, d, 1);
      cg' := cg'.(btot := btot, bpos := bpos);
      r := Ranged(cg', dWhole + 1, dLoose + n - g.frag);
    } else {
      r := Ranged(cg', dWhole, dLoose + n);
    }
    BlockReleased(g, Settled(cg, dWhole, dLoose), Settled(r.cg, r.dWhole, r.dLoose), d, o, n);
  }

  /** `add_free_frag_range`: makes the used fragments `[start, end)` free. */
  method AddFreeRange(g: Geometry, cg: Group, start: nat, end: nat) returns (r: RangeUpdate)
    requires ValidGeometry(g) && CountersExact(g, cg)
    ensures r.RangeFailed? <==> start > end || end > g.fpg || !RangeIs(cg.free, start, end - start, false)
    ensures r.RangeFailed? ==> r == RangeFailed(EINVAL)
    ensures r.Ranged? ==>
      && CountersExact(g, Settled(r.cg, r.dWhole, r.dLoose))
      && end <= |cg.free| && r.cg.free == WithRange(cg.free, start, end - start, true)
      && r.cg.nbfree == cg.nbfree && r.cg.nffree == cg.nffree && r.cg.ndblk == cg.ndblk
  {
    if start > end || end > g.fpg {
      return RangeFailed(EINVAL);
    }
    var pos := start;
    r := Ranged(cg, 0, 0);
    FlipStart(g, cg, start, true);
    while pos < end
      invariant start <= pos <= end
      invariant FlippedSoFar(g, cg, r, start, pos - start, true)
    {
      var base := BaseOf(g.frag, pos);
      AlignedInMap(g, base);
      var addEnd := if end < base + g.frag then end else base + g.frag;
      RangeJoin(cg.free, start, pos - start, addEnd - pos, true);
      r := AddInBlock(g, r.cg, r.dWhole, r.dLoose, base, pos - base, addEnd - pos);
      if r.RangeFailed? {
        RangeFailsEarly(cg.free, start, addEnd - start, end - start, false);
        return;
      }
      pos := addEnd;
    }
  }

  /** `cg` has moved to `cg'`, and its two totals by the given deltas. */
  predicate Moved(cg: Group, cg': Group, dWhole: int, dLoose: int) {
    cg'.nbfree == cg.nbfree + dWhole && cg'.nffree == cg.nffree + dLoose
  }

  /** `expand_old_last_cg`: the last group grows to `end` fragments, all of the new ones free. The
      deltas go to the superblock totals. */
  method ExpandLastGroup(g: Geometry, cg: Group, end: nat) returns (r: GroupUpdate, dWhole: int, dLoose: int)
    requires ValidGeometry(g) && Consistent(g, cg)
    ensures r.Failed? <==> end < cg.ndblk || end > g.fpg
    ensures r.Updated? ==>
      && Consistent(g, r.cg) && r.cg.ndblk == end && Moved(cg, r.cg, dWhole, dLoose)
      && cg.ndblk <= end <= |cg.free| && r.cg.free == WithRange(cg.free, cg.ndblk, end - cg.ndblk, true)
  {
    var u := AddFreeRange(g, cg, cg.ndblk, end);
    if u.RangeFailed? {
      return Failed(u.error), 0, 0;
    }
    var cg' := u.cg.(ndblk := end);
    cg' := cg'.(nbfree := cg'.nbfree + u.dWhole, nffree := cg'.nffree + u.dLoose);
    SameCounters(g, Settled(u.cg, u.dWhole, u.dLoose), cg');
    return Updated(cg'), u.dWhole, u.dLoose;
  }

  /** The counters do not depend on the group's length or rotor. */
  lemma SameCounters(g: Geometry, cg: Group, cg': Group)
    requires ValidGeometry(g) && CountersExact(g, cg)
    requires cg' == cg.(ndblk := cg'.ndblk, rotor := cg'.rotor)
    ensures CountersExact(g, cg')
  {
    assert forall c | Tracked(g, c) :: Field(g, cg', c) == Field(g, cg, c);
  }

  /** A zeroed group buffer. */
  function ZeroGroup(g: Geometry, ndblk: nat): Group
    requires ValidGeometry(g)
  {
    Group(ndblk, 0, 0, 0, seq(8, _ => 0), seq(CYLINDERS, _ => 0), seq(CYLINDERS, _ => seq(NRPOS, _ => 0)),
          seq(MapLen(g), _ => false))
  }

  lemma ZeroExact(g: Geometry, ndblk: nat)
    requires ValidGeometry(g)
    ensures CountersExact(g, ZeroGroup(g, ndblk))
  {
    var z := ZeroGroup(g, ndblk);
    forall c | Tracked(g, c) ensures Field(g, z, c) == Total(g, c, z.free) {
      TotalZero(g, c, z.free);
    }
  }

  /** `build_new_cg`: the metadata area `[dlower, dupper)` is used, the rest of the group is free. The
      new group's own counts go to the superblock totals. */
  method BuildGroup(g: Geometry, ndblk: nat, dlower: nat, dupper: nat) returns (r: GroupUpdate, whole: int, loose: int)
    requires ValidGeometry(g) && dlower <= dupper
    ensures r.Failed? <==> ndblk > g.fpg || ndblk < dupper
    ensures r.Failed? ==> r == Failed(ENOSPC)
    ensures r.Updated? ==>
      && Consistent(g, r.cg) && r.cg.ndblk == ndblk && |r.cg.free| == MapLen(g)
      && r.cg.nbfree == whole && r.cg.nffree == loose
      && forall i | 0 <= i < |r.cg.free| :: r.cg.free[i] <==> i < dlower || dupper <= i < ndblk
  {
    if ndblk > g.fpg || ndblk < dupper {
      return Failed(ENOSPC), 0, 0;
    }
    var z := ZeroGroup(g, ndblk);
    ZeroExact(g, ndblk);
    var low := AddFreeRange(g, z, 0, dlower);
    assert low.Ranged?;
    var nbfree, nffree := low.dWhole, low.dLoose;
    // The second range starts from the settled group; the source adds both deltas at the end.
    var high := AddFreeRange(g, Settled(low.cg, nbfree, nffree), dupper, ndblk);
    assert high.Ranged?;
    nbfree, nffree := nbfree + high.dWhole, nffree + high.dLoose;
    var cg' := high.cg.(nbfree := nbfree, nffree := nffree);
    assert cg' == Settled(high.cg, high.dWhole, high.dLoose);
    return Updated(cg'), nbfree, nffree;
  }

  /** One block's step of `reserve_summary_extension`: takes `n` free fragments at offset `o`. */
  method ReserveInBlock(g: Geometry, cg: Group, dWhole: int, dLoose: int, d: nat, o: nat, n: nat) returns (r: RangeUpdate)
    requires ValidGeometry(g) && CountersExact(g, Settled(cg, dWhole, dLoose)) && InMap(g, cg, d) && d < g.fpg
    requires 0 < n && o + n <= g.frag
    ensures r.RangeFailed? <==> !RangeIs(cg.free, d + o, n, true)
    ensures r.RangeFailed? ==> r == RangeFailed(ENOSPC)
    ensures r.Ranged? ==>
      && CountersExact(g, Settled(r.cg, r.dWhole, r.dLoose))
      && r.cg.free == WithRange(cg.free, d + o, n, false)
      && r.cg.nbfree == cg.nbfree && r.cg.nffree == cg.nffree && r.cg.ndblk == cg.ndblk
  {
    var ok := RangeFree(cg.free, d + o, n);
    if !ok {
      return RangeFailed(ENOSPC);
    }
    var beforeFree := CountFreeBits(cg.free, d, g.frag);
    var free := ClearRange(cg.free, d + o, n);
    var afterFree := CountFreeBits(free, d, g.frag);
    var frsum := MoveFrsum(cg.frsum, cg.free, free, d, g.frag);
    var cg' := cg.(free := free, frsum := frsum);
    r := ReserveCount(g, cg, cg', dWhole, dLoose, d, o, n, beforeFree, afterFree);
  }

  /** The counter half of a reservation: `cg1` already holds the new bitmap and run counts. */
  method ReserveCount(g: Geometry, ghost cg: Group, cg1: Group, dWhole: int, dLoose: int, d: nat, ghost o: nat, ghost n: nat,
      beforeFree: nat, afterFree: nat)
    returns (r: RangeUpdate)
    requires ValidGeometry(g) && CountersExact(g, Settled(cg, dWhole, dLoose)) && WellShaped(g, cg1)
    requires InMap(g, cg, d) && d < g.fpg && 0 < n && o + n <= g.frag && RangeIs(cg.free, d + o, n, true)
    requires cg1 == cg.(free := WithRange(cg.free, d + o, n, false), frsum := cg1.frsum) && FrsumMoved(g, cg, cg1, d)
    requires beforeFree == CountFree(BlockBits(cg.free, g.frag, d)) && afterFree == CountFree(BlockBits(cg1.free, g.frag, d))
    ensures r.Ranged? && CountersExact(g, Settled(r.cg, r.dWhole, r.dLoose)) && r.cg.free == cg1.free
    ensures r.cg.nbfree == cg.nbfree && r.cg.nffree == cg.nffree && r.cg.ndblk == cg.ndblk
  {
    TakeInBlock(g.frag, cg.free, d, o, n);
    var beforeWhole, afterWhole := beforeFree == g.frag, afterFree == g.frag;
    if beforeWhole && !afterWhole {
      var btot, bpos := BumpTables(g, cg1.btot, cg1.bpos, d, -1);
      var cg' := cg1.(btot := btot, bpos := bpos);
      r := Ranged(cg', dWhole - 1, dLoose + afterFree);
    } else {
      r := Ranged(cg1, dWhole, dLoose + afterFree - beforeFree);
    }
    BlockReserved(g, Settled(cg, dWhole, dLoose), Settled(r.cg, r.dWhole, r.dLoose), d, o, n);
  }

  /** The bitmap half of `reserve_summary_extension`: the summary area grows over `[start, end)`. */
  method ReserveRange(g: Geometry, cg: Group, start: nat, end: nat) returns (r: GroupUpdate, dWhole: int, dLoose: int)
    requires ValidGeometry(g) && Consistent(g, cg) && start <= end <= g.fpg
    ensures r.Failed? <==> !RangeIs(cg.free, start, end - start, true)
    ensures r.Failed? ==> r == Failed(ENOSPC)
    ensures r.Updated? ==>
      && Consistent(g, r.cg) && r.cg.ndblk == cg.ndblk && Moved(cg, r.cg, dWhole, dLoose)
      && end <= |cg.free| && r.cg.free == WithRange(cg.free, start, end - start, false)
  {
    var pos := start;
    var u := Ranged(cg, 0, 0);
    FlipStart(g, cg, start, false);
    while pos < end
      invariant start <= pos <= end
      invariant FlippedSoFar(g, cg, u, start, pos - start, false)
    {
      var base := BaseOf(g.frag, pos);
      AlignedInMap(g, base);
      var clearEnd := if end < base + g.frag then end else base + g.frag;
      RangeJoin(cg.free, start, pos - start, clearEnd - pos, false);
      u := ReserveInBlock(g, u.cg, u.dWhole, u.dLoose, base, pos - base, clearEnd - pos);
      if u.RangeFailed? {
        RangeFailsEarly(cg.free, start, clearEnd - start, end - start, true);
        return Failed(u.error), 0, 0;
      }
      pos := clearEnd;
    }
    var cg' := u.cg.(nbfree := u.cg.nbfree + u.dWhole, nffree := u.cg.nffree + u.dLoose);
    return Updated(cg'), u.dWhole, u.dLoose;
  }
}
