/** Where a volume's counts come from: the formatter's loop over the groups with its first two
    allocations, and the resizer. Each leaves the counts as the allocator of module `Volume` keeps them:
    every group's summaries are those of its bitmap, the summary area repeats them, and the superblock
    totals are their sums. */
module VolumeBuild {
  import opened GroupSpec
  import opened CylinderGroup
  import opened GroupBuild
  import opened GroupScan
  import opened Options
  import opened Scale
  import opened Volume

  /** Where a group's metadata lies: the group's stagger, and the first fragments of its superblock copy
      and of its data area, both counted from the stagger. */
  datatype Shape = Shape(offset: nat -> nat, sblk: nat, dblk: nat)

  /** First fragment of the metadata of group `c`, and the first one past it. */
  function Low(s: Shape, c: nat): nat {
    s.offset(c) + s.sblk
  }

  function High(s: Shape, c: nat): nat {
    s.offset(c) + s.dblk
  }

  /** `n` things, `k` to a unit, rounded up to whole units. */
  function Units(k: nat, n: nat): nat
    requires 0 < k
  {
    Quot(k, n + k - 1)
  }

  function GroupsIn(g: Geometry, size: nat): nat
    requires 0 < g.fpg
  {
    Units(g.fpg, size)
  }

  /** Length of group `c` of a volume of `size` fragments. */
  function GroupLen(g: Geometry, size: nat, c: nat): (n: nat)
    ensures n <= g.fpg && (n == 0 || Times(g.fpg, c) + n <= size)
  {
    var b := Times(g.fpg, c);
    if size < b then 0 else if size - b < g.fpg then size - b else g.fpg
  }

  function Lens(g: Geometry, size: nat): (lens: seq<nat>)
    requires 0 < g.fpg
    ensures |lens| == GroupsIn(g, size) && forall c | 0 <= c < |lens| :: lens[c] == GroupLen(g, size, c)
  {
    seq(GroupsIn(g, size), c requires 0 <= c => GroupLen(g, size, c))
  }

  lemma {:induction false} GroupsFit(g: Geometry, size: nat, c: nat)
    requires 0 < g.fpg
    ensures c < GroupsIn(g, size) <==> Times(g.fpg, c) < size
    ensures c < GroupsIn(g, size) ==> 0 < GroupLen(g, size, c) && Times(g.fpg, c) + GroupLen(g, size, c) <= size
    ensures c + 1 < GroupsIn(g, size) ==> GroupLen(g, size, c) == g.fpg
  {
    var q := GroupsIn(g, size);
    if c < q { TimesMonotone(g.fpg, c, q); }
    if q < c { TimesMonotone(g.fpg, q, c); }
    if c + 1 < q { TimesMonotone(g.fpg, c + 1, q); }
  }

  // ----- sums, one group at a time -----

  /** The counts of the groups written so far: `CountsValid` for a prefix of the groups. */
  ghost predicate CountedTo(g: Geometry, lens: seq<nat>, cgs: seq<Group>, csum: seq<Csum>, total: Csum)
    requires ValidGeometry(g)
  {
    && |cgs| == |csum| <= |lens|
    && GroupsConsistent(g, cgs)
    && (forall c | 0 <= c < |cgs| :: cgs[c].ndblk == lens[c])
    && (forall c | 0 <= c < |cgs| :: csum[c] == Csum(cgs[c].nbfree, cgs[c].nffree))
    && total == Csum(SumWhole(cgs), SumLoose(cgs))
  }

  lemma {:induction false} GroupAdded(g: Geometry, lens: seq<nat>, cgs: seq<Group>, csum: seq<Csum>, total: Csum, cg: Group)
    requires ValidGeometry(g) && CountedTo(g, lens, cgs, csum, total) && |cgs| < |lens|
    requires Consistent(g, cg) && cg.ndblk == lens[|cgs|]
    ensures CountedTo(g, lens, cgs + [cg], csum + [Csum(cg.nbfree, cg.nffree)],
                      Csum(total.nbfree + cg.nbfree, total.nffree + cg.nffree))
  {
    hide Consistent;
    var next := cgs + [cg];
    assert next[..|cgs|] == cgs;
    assert SumWhole(next) == SumWhole(cgs) + cg.nbfree && SumLoose(next) == SumLoose(cgs) + cg.nffree;
  }

  /** One group is rewritten, perhaps to a new length. */
  lemma {:induction false} GroupReplaced(g: Geometry, lens: seq<nat>, lens': seq<nat>, cgs: seq<Group>, csum: seq<Csum>,
      total: Csum, c: nat, cg: Group, dWhole: int, dLoose: int)
    requires ValidGeometry(g) && CountedTo(g, lens, cgs, csum, total) && c < |cgs| <= |lens'|
    requires Consistent(g, cg) && Moved(cgs[c], cg, dWhole, dLoose) && cg.ndblk == lens'[c]
    requires forall i | 0 <= i < |cgs| && i != c :: lens'[i] == lens[i]
    ensures CountedTo(g, lens', cgs[c := cg], csum[c := Csum(cg.nbfree, cg.nffree)],
                      Csum(total.nbfree + dWhole, total.nffree + dLoose))
  {
    hide Consistent, SumWhole, SumLoose;
    SumsUpdate(cgs, c, cg);
  }

  /** All groups are written. */
  lemma {:induction false} AllCounted(g: Geometry, size: nat, cgs: seq<Group>, csum: seq<Csum>, total: Csum)
    requires ValidGeometry(g) && 0 < size && CountedTo(g, Lens(g, size), cgs, csum, total) && |cgs| == GroupsIn(g, size)
    requires !IsFree(g, cgs, 0)
    ensures CountsValid(g, Lens(g, size), size, cgs, csum, total)
  {
    hide Consistent, IsFree, SumWhole, SumLoose, Times, Quot;
    GroupsFit(g, size, 0);
    assert Times(g.fpg, 0) == 0 by { TimesIsProduct(g.fpg, 0); }
    forall c | 0 <= c < GroupsIn(g, size) ensures Times(g.fpg, c) + Lens(g, size)[c] <= size { GroupsFit(g, size, c); }
  }

  // ----- the formatter -----

  /** First fragment of the data area of group `c`: in group zero it follows the summary area. */
  function DataFrom(s: Shape, csumFrags: nat, c: nat): nat {
    High(s, c) + if c == 0 then csumFrags else 0
  }

  /** What the formatter has checked before it writes a group: metadata starts on a block boundary and
      fits in its group, and group zero keeps two whole blocks for the first two directories. */
  predicate Formattable(g: Geometry, s: Shape, size: nat, csumFrags: nat) {
    && ValidGeometry(g) && 0 < size && s.sblk <= s.dblk && 0 < s.dblk
    && (forall c | 0 <= c < GroupsIn(g, size) ::
          Aligned(g.frag, Low(s, c)) && RoundUp(g.frag, DataFrom(s, csumFrags, c)) <= GroupLen(g, size, c))
    && RoundUp(g.frag, DataFrom(s, csumFrags, 0)) + 2 * g.frag <= GroupLen(g, size, 0)
  }

  ghost predicate Initial(g: Geometry, s: Shape, size: nat, csumFrags: nat, cgs: seq<Group>)
    requires ValidGeometry(g)
  {
    forall c | 0 <= c < |cgs| ::
      |cgs[c].free| == MapLen(g) && InitialMap(cgs[c].free, c == 0, Low(s, c), DataFrom(s, csumFrags, c), GroupLen(g, size, c))
  }

  /** The loop over `initcg`. The group buffer keeps the bitmap of the group before. */
  method InitGroups(g: Geometry, s: Shape, size: nat, csumFrags: nat, buffer: seq<bool>)
    returns (cgs: seq<Group>, csum: seq<Csum>, total: Csum)
    requires Formattable(g, s, size, csumFrags) && |buffer| == MapLen(g)
    ensures CountsValid(g, Lens(g, size), size, cgs, csum, total)
    ensures Initial(g, s, size, csumFrags, cgs)
  {
    hide Times, Quot, Aligned, IsFree, Consistent, InitialMap, SumWhole, SumLoose;
    var ncg := Groups(g, size);
    var stale := buffer;
    cgs, csum, total := [], [], Csum(0, 0);
    NoGroups(g, Lens(g, size));
    while |cgs| < ncg
      invariant |cgs| <= ncg == GroupsIn(g, size) && |stale| == MapLen(g)
      invariant CountedTo(g, Lens(g, size), cgs, csum, total)
      invariant Initial(g, s, size, csumFrags, cgs)
      decreases ncg - |cgs|
    {
      var c := |cgs|;
      var n := Length(g, size, c);
      var cg := InitGroup(g, c == 0, stale, n, Low(s, c), DataFrom(s, csumFrags, c));
      GroupAdded(g, Lens(g, size), cgs, csum, total, cg);
      cgs, csum := cgs + [cg], csum + [Csum(cg.nbfree, cg.nffree)];
      total := Csum(total.nbfree + cg.nbfree, total.nffree + cg.nffree);
      stale := cg.free;
    }
    GroupsFit(g, size, 0);
    FirstUsed(g, s, size, csumFrags, cgs);
    AllCounted(g, size, cgs, csum, total);
  }

  lemma {:induction false} NoGroups(g: Geometry, lens: seq<nat>)
    requires ValidGeometry(g)
    ensures CountedTo(g, lens, [], [], Csum(0, 0))
  {
  }

  lemma {:induction false} FirstUsed(g: Geometry, s: Shape, size: nat, csumFrags: nat, cgs: seq<Group>)
    requires ValidGeometry(g) && 0 < |cgs| && 0 < s.dblk && Initial(g, s, size, csumFrags, cgs)
    ensures !IsFree(g, cgs, 0)
  {
    QuotUnique(g.fpg, 0, 0);
  }

  /** Number of groups and length of a group as the source computes them. */
  method Groups(g: Geometry, size: nat) returns (n: nat)
    requires 0 < g.fpg
    ensures n == GroupsIn(g, size)
  {
    QuotIsDivision(g.fpg, size + g.fpg - 1);
    n := (size + g.fpg - 1) / g.fpg;
  }

  method Length(g: Geometry, size: nat, c: nat) returns (n: nat)
    requires 0 < g.fpg && c < GroupsIn(g, size)
    ensures n == GroupLen(g, size, c)
  {
    GroupsFit(g, size, c);
    var b := Mul(g.fpg, c);
    var remaining := size - b;
    n := if remaining < g.fpg then remaining else g.fpg;
  }

  // ----- the formatter's `alloc` -----

  lemma {:induction false} BelowStep(g: Geometry, bits: seq<bool>, d: nat)
    requires ValidGeometry(g) && Aligned(g.frag, d) && NoWholeBelow(g, bits, d) && !WholeFree(g.frag, bits, d)
    ensures Aligned(g.frag, d + g.frag) && NoWholeBelow(g, bits, d + g.frag)
  {
    AlignedStep(g.frag, d);
    forall e: nat | Aligned(g.frag, e) && e < d + g.frag ensures !WholeFree(g.frag, bits, e) {
      if d < e { BlocksApart(g.frag, d, e); }
    }
  }

  /** The first wholly free block of a group. A group that counts a whole block has one, so the search
      never ends in the formatter's internal error. */
  method FirstBlock(g: Geometry, cg: Group) returns (r: Option<nat>)
    requires ValidGeometry(g) && Consistent(g, cg)
    ensures r.None? <==> cg.nbfree == 0
    ensures r.Some? ==> InMap(g, cg, r.value) && WholeFree(g.frag, cg.free, r.value) && NoWholeBelow(g, cg.free, r.value)
  {
    CountedWhole(g, cg);
    if cg.nbfree == 0 {
      return None;
    }
    var d: nat := 0;
    AlignedAtZero(g.frag);
    while d < cg.ndblk
      invariant Aligned(g.frag, d) && NoWholeBelow(g, cg.free, d)
    {
      BlockBelowLimit(g, cg, d);
      var whole := BlockIsFree(g.frag, cg.free, d);
      if whole {
        return Some(d);
      }
      BelowStep(g, cg.free, d);
      d := d + g.frag;
    }
    assert false;
  }

  lemma {:induction false} AlignedAtZero(f: nat)
    requires BlockSize(f)
    ensures Aligned(f, 0)
  {
  }

  lemma {:induction false} WholeHead(f: nat, bits: seq<bool>, d: nat)
    requires 0 < f && WholeFree(f, bits, d)
    ensures bits[d]
  {
    assert BlockBits(bits, f, d)[0] == bits[d];
  }

  /** The first whole block is `at`, when that block is free and every block below starts with a used
      fragment. */
  lemma {:induction false} FirstIsAt(g: Geometry, free: seq<bool>, at: nat, d: nat)
    requires ValidGeometry(g) && Aligned(g.frag, at) && at + g.frag <= |free| && RangeIs(free, at, g.frag, true)
    requires forall e: nat | Aligned(g.frag, e) && e < at :: !free[e]
    requires Aligned(g.frag, d) && WholeFree(g.frag, free, d) && NoWholeBelow(g, free, d)
    ensures d == at
  {
    WholeIsRange(g.frag, free, at);
    WholeHead(g.frag, free, d);
  }

  /** Group zero of a fresh volume: two whole blocks start the data area. */
  lemma {:induction false} FreshBlocks(g: Geometry, s: Shape, size: nat, csumFrags: nat, cgs: seq<Group>, first: nat)
    requires Formattable(g, s, size, csumFrags) && Initial(g, s, size, csumFrags, cgs) && 0 < |cgs|
    requires first == RoundUp(g.frag, DataFrom(s, csumFrags, 0))
    ensures first + 2 * g.frag <= |cgs[0].free| && Aligned(g.frag, first) && Aligned(g.frag, first + g.frag)
    ensures RangeIs(cgs[0].free, first, 2 * g.frag, true)
    ensures forall e: nat | Aligned(g.frag, e) && e < first :: !cgs[0].free[e]
  {
    assert InitialMap(cgs[0].free, true, Low(s, 0), DataFrom(s, csumFrags, 0), GroupLen(g, size, 0));
    AlignedStep(g.frag, first);
    forall e: nat | Aligned(g.frag, e) && e < first ensures e < DataFrom(s, csumFrags, 0) {
      BlocksApart(g.frag, e, first);
    }
  }

  /** The first block is gone; the second one is now the first. */
  lemma {:induction false} SecondBlock(g: Geometry, free: seq<bool>, at: nat, free': seq<bool>)
    requires ValidGeometry(g) && Aligned(g.frag, at) && at + 2 * g.frag <= |free| && RangeIs(free, at, 2 * g.frag, true)
    requires forall e: nat | Aligned(g.frag, e) && e < at :: !free[e]
    requires free' == WithRange(free, at, g.frag, false)
    ensures Aligned(g.frag, at + g.frag) && at + 2 * g.frag <= |free'| && RangeIs(free', at + g.frag, g.frag, true)
    ensures forall e: nat | Aligned(g.frag, e) && e < at + g.frag :: !free'[e]
  {
    AlignedStep(g.frag, at);
    forall e: nat | Aligned(g.frag, e) && e < at + g.frag ensures !free'[e] {
      if at < e { BlocksApart(g.frag, at, e); }
    }
  }

  lemma {:induction false} Grantable(g: Geometry, cg: Group, at: nat)
    requires ValidGeometry(g) && Consistent(g, cg) && Aligned(g.frag, at) && RangeIs(cg.free, at, g.frag, true)
    ensures cg.nbfree != 0
  {
    WholeIsRange(g.frag, cg.free, at);
    RunBelowLimit(g, cg, at, 0, g.frag);
    CountedWhole(g, cg);
  }

  // ----- the resizer -----

  /** Fragment `x` of a new group is outside the group's metadata. */
  predicate OutsideMeta(g: Geometry, s: Shape, x: nat)
    requires 0 < g.fpg
  {
    var c := Quot(g.fpg, x);
    var l := x - Times(g.fpg, c);
    l < Low(s, c) || High(s, c) <= l
  }

  /** What growing to `target` makes of fragment `x`: everything past the old end is free but for the
      metadata of the new groups, and the summary area takes `[from, to)`. */
  ghost predicate FreeGrown(g: Geometry, s: Shape, size: nat, target: nat, was: seq<Group>, from: nat, to: nat, x: nat)
    requires 0 < g.fpg
  {
    && !(from <= x < to)
    && (IsFree(g, was, x) || (size <= x < target && (Quot(g.fpg, x) < |was| || OutsideMeta(g, s, x))))
  }

  /** Every new group can hold its metadata. */
  ghost predicate MetadataFits(g: Geometry, s: Shape, size: nat, target: nat)
    requires 0 < g.fpg
  {
    forall c | GroupsIn(g, size) <= c < GroupsIn(g, target) :: High(s, c) <= GroupLen(g, target, c)
  }

  lemma {:induction false} GroupsGrow(g: Geometry, size: nat, target: nat)
    requires 0 < g.fpg && 0 < size <= target
    ensures 0 < GroupsIn(g, size) <= GroupsIn(g, target)
    ensures var last := GroupsIn(g, size) - 1;
      && (forall c | 0 <= c < last :: GroupLen(g, target, c) == GroupLen(g, size, c))
      && GroupLen(g, size, last) <= GroupLen(g, target, last)
      && Times(g.fpg, last) + GroupLen(g, size, last) == size
      && (GroupsIn(g, size) < GroupsIn(g, target) ==> GroupLen(g, target, last) == g.fpg)
  {
    GroupsFit(g, size, 0);
    var last := GroupsIn(g, size) - 1;
    GroupsFit(g, size, last);
    GroupsFit(g, size, last + 1);
    GroupsFit(g, target, last);
    forall c | 0 <= c < last ensures GroupLen(g, target, c) == GroupLen(g, size, c) {
      GroupsFit(g, size, c);
    }
  }

  /** The old last group, after it has grown. */
  method ExpandLast(g: Geometry, size: nat, target: nat, cgs: seq<Group>, csum: seq<Csum>, total: Csum)
    returns (cgs': seq<Group>, csum': seq<Csum>, total': Csum)
    requires ValidGeometry(g) && 0 < size <= target && CountsValid(g, Lens(g, size), size, cgs, csum, total)
    ensures CountedTo(g, Lens(g, target), cgs', csum', total') && |cgs'| == |cgs|
    ensures forall x: nat :: IsFree(g, cgs', x) <==>
      IsFree(g, cgs, x) || (size <= x < target && Quot(g.fpg, x) < |cgs|)
  {
    hide Times, Quot, Aligned, IsFree, Consistent, SumWhole, SumLoose, WithRange;
    GroupsGrow(g, size, target);
    var last: nat := |cgs| - 1;
    var end := Length(g, target, last);
    var u, dWhole, dLoose := ExpandLastGroup(g, cgs[last], end);
    assert u.Updated?;
    var cg := u.cg;
    GroupReplaced(g, Lens(g, size), Lens(g, target), cgs, csum, total, last, cg, dWhole, dLoose);
    cgs', csum' := cgs[last := cg], csum[last := Csum(cg.nbfree, cg.nffree)];
    total' := Csum(total.nbfree + dWhole, total.nffree + dLoose);
    forall x: nat ensures IsFree(g, cgs', x) <==> IsFree(g, cgs, x) || (size <= x < target && Quot(g.fpg, x) < |cgs|) {
      FreeAfterRange(g, cgs, cgs', last, cgs[last].ndblk, end - cgs[last].ndblk, true, x);
      LastCovers(g, size, target, x);
    }
  }

  /** What the last group gained is what the volume gained in it. */
  lemma {:induction false} LastCovers(g: Geometry, size: nat, target: nat, x: nat)
    requires 0 < g.fpg && 0 < size <= target
    ensures GroupsIn(g, size) > 0
    ensures var last := GroupsIn(g, size) - 1;
      (size <= x < Times(g.fpg, last) + GroupLen(g, target, last) <==> size <= x < target && Quot(g.fpg, x) < GroupsIn(g, size))
  {
    hide Quot;
    GroupsGrow(g, size, target);
    var last := GroupsIn(g, size) - 1;
    var k := Quot(g.fpg, x);
    if k < last { TimesMonotone(g.fpg, k, last); }
    if last < k { TimesMonotone(g.fpg, last, k); }
  }

  /** The summary area's extension `[from, to)` in group zero, if all of it is free. */
  method ReserveSummary(g: Geometry, lens: seq<nat>, cgs: seq<Group>, csum: seq<Csum>, total: Csum, from: nat, to: nat)
    returns (ok: bool, cgs': seq<Group>, csum': seq<Csum>, total': Csum)
    requires ValidGeometry(g) && 0 < |cgs| && CountedTo(g, lens, cgs, csum, total) && from <= to <= g.fpg
    ensures ok <==> forall x | from <= x < to :: IsFree(g, cgs, x)
    ensures ok ==> CountedTo(g, lens, cgs', csum', total') && |cgs'| == |cgs|
    ensures ok ==> forall x: nat :: IsFree(g, cgs', x) <==> IsFree(g, cgs, x) && !(from <= x < to)
  {
    hide Quot, Aligned, IsFree, Consistent, SumWhole, SumLoose, WithRange;
    MapCovers(g, cgs[0]);
    RangeFreeAt(g, cgs, 0, from, to - from, true);
    var u, dWhole, dLoose := ReserveRange(g, cgs[0], from, to);
    if u.Failed? {
      ok, cgs', csum', total' := false, cgs, csum, total;
      return;
    }
    var cg := u.cg;
    GroupReplaced(g, lens, lens, cgs, csum, total, 0, cg, dWhole, dLoose);
    ok, cgs', csum' := true, cgs[0 := cg], csum[0 := Csum(cg.nbfree, cg.nffree)];
    total' := Csum(total.nbfree + dWhole, total.nffree + dLoose);
    forall x: nat ensures IsFree(g, cgs', x) <==> IsFree(g, cgs, x) && !(from <= x < to) {
      FreeAfterRange(g, cgs, cgs', 0, from, to - from, false, x);
    }
  }

  lemma {:induction false} MapCovers(g: Geometry, cg: Group)
    requires ValidGeometry(g) && Consistent(g, cg)
    ensures g.fpg <= |cg.free|
  {
  }

  /** Past the groups of `was`, everything but the metadata is free. */
  ghost predicate NewGroups(g: Geometry, s: Shape, target: nat, was: seq<Group>, cgs: seq<Group>)
    requires 0 < g.fpg
  {
    forall x: nat :: IsFree(g, cgs, x) <==>
      IsFree(g, was, x) || (|was| <= Quot(g.fpg, x) < |cgs| && x < target && OutsideMeta(g, s, x))
  }

  /** Appends the groups the volume does not have yet. */
  method AppendGroups(g: Geometry, s: Shape, target: nat, cgs: seq<Group>, csum: seq<Csum>, total: Csum)
    returns (cgs': seq<Group>, csum': seq<Csum>, total': Csum)
    requires ValidGeometry(g) && s.sblk <= s.dblk && CountedTo(g, Lens(g, target), cgs, csum, total)
    requires forall c | |cgs| <= c < GroupsIn(g, target) :: High(s, c) <= GroupLen(g, target, c)
    ensures CountedTo(g, Lens(g, target), cgs', csum', total') && |cgs'| == GroupsIn(g, target)
    ensures NewGroups(g, s, target, cgs, cgs')
  {
    hide Times, Quot, Aligned, IsFree, Consistent, SumWhole, SumLoose, NewGroups;
    var ncg := Groups(g, target);
    cgs', csum', total' := cgs, csum, total;
    NothingNew(g, s, target, cgs);
    while |cgs'| < ncg
      invariant |cgs| <= |cgs'| <= ncg && CountedTo(g, Lens(g, target), cgs', csum', total')
      invariant NewGroups(g, s, target, cgs, cgs')
      decreases ncg - |cgs'|
    {
      var c := |cgs'|;
      var n := Length(g, target, c);
      var u, whole, loose := BuildGroup(g, n, Low(s, c), High(s, c));
      assert u.Updated?;
      NewGroup(g, s, target, cgs, cgs', u.cg);
      GroupAdded(g, Lens(g, target), cgs', csum', total', u.cg);
      cgs', csum' := cgs' + [u.cg], csum' + [Csum(whole, loose)];
      total' := Csum(total'.nbfree + whole, total'.nffree + loose);
    }
  }

  lemma {:induction false} NothingNew(g: Geometry, s: Shape, target: nat, cgs: seq<Group>)
    requires 0 < g.fpg
    ensures NewGroups(g, s, target, cgs, cgs)
  {
    hide IsFree, Quot;
  }

  lemma {:induction false} NewGroup(g: Geometry, s: Shape, target: nat, was: seq<Group>, cgs: seq<Group>, cg: Group)
    requires ValidGeometry(g) && |was| <= |cgs| < GroupsIn(g, target) && NewGroups(g, s, target, was, cgs)
    requires |cg.free| == MapLen(g) && forall i | 0 <= i < |cg.free| ::
      cg.free[i] <==> i < Low(s, |cgs|) || High(s, |cgs|) <= i < GroupLen(g, target, |cgs|)
    requires High(s, |cgs|) <= GroupLen(g, target, |cgs|) && s.sblk <= s.dblk
    ensures NewGroups(g, s, target, was, cgs + [cg])
  {
    hide Times, Quot;
    var n := |cgs|;
    forall x: nat ensures IsFree(g, cgs + [cg], x) <==>
      IsFree(g, was, x) || (|was| <= Quot(g.fpg, x) < n + 1 && x < target && OutsideMeta(g, s, x))
    {
      assert IsFree(g, cgs, x) <==> IsFree(g, was, x) || (|was| <= Quot(g.fpg, x) < n && x < target && OutsideMeta(g, s, x));
      var l := x - Times(g.fpg, Quot(g.fpg, x));
      if Quot(g.fpg, x) == n {
        GroupsFit(g, target, n);
        MapLenCovers(g);
        assert l < g.fpg;
        assert x < target <==> l < GroupLen(g, target, n);
      }
    }
  }

  lemma {:induction false} MapLenCovers(g: Geometry)
    requires ValidGeometry(g)
    ensures g.fpg <= MapLen(g)
  {
  }

  const UINT32_LIMIT := 0x1_0000_0000
  const CSUM_BYTES := 16

  datatype GrowResult = Grown | NotLarger | TooLarge | MetadataCut | SummaryTooLarge | SummaryInUse

  /** The counts of one volume as the formatter and the resizer keep them. */
  class Table {
    const g: Geometry
    const shape: Shape
    const fragSize: nat
    var size: nat        // fs_size
    var csumBytes: nat   // fs_cssize
    var cgs: seq<Group>
    var csum: seq<Csum>
    var total: Csum

    ghost predicate Valid()
      reads this
    {
      && ValidGeometry(g) && 0 < fragSize && 0 < size && shape.sblk <= shape.dblk
      && CountsValid(g, Lens(g, size), size, cgs, csum, total)
    }

    /** First fragment past the summary area, which starts at the data area of group zero. */
    function SummaryEnd(bytes: nat): nat
      requires 0 < fragSize
    {
      High(shape, 0) + Units(fragSize, bytes)
    }

    /** The group loop of the formatter. */
    constructor Format(g: Geometry, shape: Shape, fragSize: nat, size: nat, csumBytes: nat, buffer: seq<bool>)
      requires 0 < fragSize && Formattable(g, shape, size, Units(fragSize, csumBytes)) && |buffer| == MapLen(g)
      ensures Valid() && Initial(g, shape, size, Units(fragSize, csumBytes), cgs)
      ensures this.g == g && this.shape == shape && this.fragSize == fragSize && this.size == size && this.csumBytes == csumBytes
    {
      this.g, this.shape, this.fragSize, this.size, this.csumBytes := g, shape, fragSize, size, csumBytes;
      QuotIsDivision(fragSize, csumBytes + fragSize - 1);
      var groups, sums, all := InitGroups(g, shape, size, (csumBytes + fragSize - 1) / fragSize, buffer);
      cgs, csum, total := groups, sums, all;
    }

    /** `alloc`: `n` fragments from the first whole block of group zero. */
    method Alloc(n: nat) returns (r: Option<nat>)
      requires Valid() && 1 <= n <= g.frag
      modifies this`cgs, this`csum, this`total
      ensures Valid()
      ensures r.None? <==> old(cgs)[0].nbfree == 0
      ensures r.None? ==> unchanged(this)
      ensures r.Some? ==>
        && r.value + g.frag <= |old(cgs)[0].free| && Aligned(g.frag, r.value)
        && WholeFree(g.frag, old(cgs)[0].free, r.value) && NoWholeBelow(g, old(cgs)[0].free, r.value)
        && |cgs| == |old(cgs)| && cgs[0].free == WithRange(old(cgs)[0].free, r.value, n, false)
        && forall x: nat :: IsFree(g, cgs, x) <==> IsFree(g, old(cgs), x) && !(r.value <= x < r.value + n)
    {
      hide Quot, Aligned, IsFree, Consistent, SumWhole, SumLoose, WithRange, NoWholeBelow, WholeFree, Lens;
      r := FirstBlock(g, cgs[0]);
      if r.Some? {
        var d := r.value;
        var cg := TakeWhole(g, cgs[0], d, n);
        cg := KeepRotor(g, cgs[0], cg, d, n);
        StoreKeeps(g, Lens(g, size), size, cgs, csum, total, 0, cgs[0 := cg], -1, g.frag - n, d, n, false);
        StoreFree(g, cgs, 0, cgs[0 := cg], -1, g.frag - n, d, n, false);
        cgs := cgs[0 := cg];
        csum := csum[0 := Csum(csum[0].nbfree - 1, csum[0].nffree + (g.frag - n))];
        total := Csum(total.nbfree - 1, total.nffree + (g.frag - n));
      }
    }

    /** `fsinit`: lost+found takes a block, the root directory one fragment. On a fresh volume both are
        granted, lost+found at the first whole block of the data area and the root directory next to it. */
    method InitDirectories() returns (lostFound: Option<nat>, root: Option<nat>)
      requires Valid() && Formattable(g, shape, size, Units(fragSize, csumBytes))
      requires Initial(g, shape, size, Units(fragSize, csumBytes), cgs)
      modifies this`cgs, this`csum, this`total
      ensures Valid()
      ensures var first := RoundUp(g.frag, SummaryEnd(csumBytes)); lostFound == Some(first) && root == Some(first + g.frag)
    {
      hide CountsValid, Formattable, Initial, Aligned, IsFree, RangeIs, WholeFree, NoWholeBelow, WithRange, RoundUp, Units;
      ghost var first := RoundUp(g.frag, SummaryEnd(csumBytes));
      ghost var free0 := FreshStart(csumBytes, first);
      lostFound := Alloc(g.frag);
      FirstIsAt(g, free0, first, lostFound.value);
      SecondBlock(g, free0, first, cgs[0].free);
      HasGrant(first + g.frag);
      ghost var free1 := cgs[0].free;
      root := Alloc(1);
      FirstIsAt(g, free1, first + g.frag, root.value);
    }

    lemma FreshStart(bytes: nat, first: nat) returns (free: seq<bool>)
      requires Valid() && bytes == csumBytes && Formattable(g, shape, size, Units(fragSize, bytes))
      requires Initial(g, shape, size, Units(fragSize, bytes), cgs) && first == RoundUp(g.frag, SummaryEnd(bytes))
      ensures 0 < |cgs| && free == cgs[0].free && Aligned(g.frag, first) && 0 < g.frag && cgs[0].nbfree != 0
      ensures first + 2 * g.frag <= |free| && RangeIs(free, first, 2 * g.frag, true) && RangeIs(free, first, g.frag, true)
      ensures forall e: nat | Aligned(g.frag, e) && e < first :: !free[e]
    {
      hide Quot, Aligned, IsFree, Consistent, SumWhole, SumLoose, WithRange, NoWholeBelow, WholeFree, Lens, Initial, RoundUp;
      free := cgs[0].free;
      FreshBlocks(g, shape, size, Units(fragSize, bytes), cgs, first);
      Grantable(g, cgs[0], first);
    }

    lemma HasGrant(at: nat)
      requires Valid() && Aligned(g.frag, at) && 0 < |cgs| && RangeIs(cgs[0].free, at, g.frag, true)
      ensures cgs[0].nbfree != 0
    {
      hide Aligned, IsFree, Consistent, SumWhole, SumLoose, RangeIs;
      Grantable(g, cgs[0], at);
    }

    /** The counts are those the allocator starts from. */
    method Mount(entries: nat, spf: nat, dataFrags: nat, minfree: nat, unprivileged: bool, data: seq<Byte>) returns (v: Volume)
      requires Valid() && size < UINT32_LIMIT && 0 < spf && 0 < entries && 4 * entries == Times(fragSize, g.frag)
      requires |data| == Times(fragSize, size)
      ensures fresh(v) && v.Valid() && v.cgs == cgs && v.lens == Lens(g, size) && v.fragCount == size
    {
      v := new Volume.Mount(Layout(g, Lens(g, size), fragSize, entries, size), spf, dataFrags, minfree, unprivileged, cgs, csum, total, data);
    }

    /** `fs_cssize` for `target` fragments: an entry for each group, in whole fragments. */
    function GrownSummary(target: nat): nat
      requires 0 < g.fpg && 0 < fragSize
    {
      Times(fragSize, Units(fragSize, CSUM_BYTES * GroupsIn(g, target)))
    }

    /** Where the summary area has to grow to. */
    function Extension(target: nat): nat
      requires 0 < g.fpg && 0 < fragSize
      reads this`csumBytes
    {
      if csumBytes < GrownSummary(target) then SummaryEnd(GrownSummary(target)) else SummaryEnd(csumBytes)
    }

    /** When growing succeeds, and otherwise why not. */
    ghost function Verdict(target: nat): GrowResult
      requires 0 < g.fpg && 0 < fragSize
      reads this
    {
      if target <= size then NotLarger
      else if target >= UINT32_LIMIT || GrownSummary(target) >= UINT32_LIMIT then TooLarge
      else if !MetadataFits(g, shape, size, target) then MetadataCut
      else if csumBytes < GrownSummary(target) && Extension(target) > g.fpg then SummaryTooLarge
      else if AllExpanded(g, size, target, cgs, SummaryEnd(csumBytes), Extension(target)) then Grown
      else SummaryInUse
    }

    /** `resize_grow`, without the evacuation of data from the summary extension. A failure rolls every
        write back, so the fields are only set at the end. */
    method Grow(target: nat) returns (r: GrowResult)
      requires Valid()
      modifies this
      ensures Valid() && r == old(Verdict(target))
      ensures !r.Grown? ==> unchanged(this)
      ensures r.Grown? ==> size == target && csumBytes == GrownSummary(target) && |cgs| == GroupsIn(g, target)
      ensures r.Grown? ==> forall x: nat :: IsFree(g, cgs, x) <==>
        FreeGrown(g, shape, old(size), target, old(cgs), old(SummaryEnd(csumBytes)), old(Extension(target)), x)
    {
      hide Quot, Times, IsFree, CountsValid, AllExpanded, FreeGrown, Units, GroupsIn, Lens, MetadataFits;
      if target <= size {
        return NotLarger;
      }
      var ncg := Groups(g, target);
      var frags := RoundedUp(fragSize, CSUM_BYTES * ncg);
      var grown := Mul(fragSize, frags);
      if target >= UINT32_LIMIT || grown >= UINT32_LIMIT {
        return TooLarge;
      }
      var fits := NewMetadataFits(g, shape, size, target);
      if !fits {
        return MetadataCut;
      }
      var used := RoundedUp(fragSize, csumBytes);
      var from: nat, to: nat := High(shape, 0) + used, High(shape, 0) + used;
      if csumBytes < grown {
        UnitsOfWhole(fragSize, frags);
        UnitsMonotone(fragSize, csumBytes, grown);
        to := High(shape, 0) + frags;
        if to > g.fpg {
          return SummaryTooLarge;
        }
      }
      var ok, groups, sums, all := GrowCounts(g, shape, size, target, cgs, csum, total, from, to);
      if !ok {
        return SummaryInUse;
      }
      size, csumBytes, cgs, csum, total := target, grown, groups, sums, all;
      CountsSize(g, target, groups, sums, all);
      return Grown;
    }
  }

  lemma {:induction false} CountsSize(g: Geometry, size: nat, cgs: seq<Group>, csum: seq<Csum>, total: Csum)
    requires ValidGeometry(g) && CountsValid(g, Lens(g, size), size, cgs, csum, total)
    ensures |cgs| == GroupsIn(g, size)
  {
  }

  /** Rounding up as the source does it. */
  method RoundedUp(k: nat, n: nat) returns (q: nat)
    requires 0 < k
    ensures q == Units(k, n)
  {
    QuotIsDivision(k, n + k - 1);
    q := (n + k - 1) / k;
  }

  lemma {:induction false} UnitsOfWhole(k: nat, q: nat)
    requires 0 < k
    ensures Units(k, Times(k, q)) == q
  {
    QuotUnique(k, q, k - 1);
  }

  lemma {:induction false} UnitsMonotone(k: nat, a: nat, b: nat)
    requires 0 < k && a <= b
    ensures Units(k, a) <= Units(k, b)
  {
    var p, q := Units(k, a), Units(k, b);
    if q < p { TimesMonotone(k, q, p); }
  }

  method NewMetadataFits(g: Geometry, s: Shape, size: nat, target: nat) returns (ok: bool)
    requires 0 < g.fpg && 0 < size <= target
    ensures ok <==> MetadataFits(g, s, size, target)
  {
    var c := Groups(g, size);
    var ncg := Groups(g, target);
    while c < ncg
      invariant GroupsIn(g, size) <= c
      invariant forall k | GroupsIn(g, size) <= k < c :: High(s, k) <= GroupLen(g, target, k)
    {
      var n := Length(g, target, c);
      if n < High(s, c) {
        return false;
      }
      c := c + 1;
    }
    return true;
  }

  /** Fragment `x` is free once the old last group has grown. */
  ghost predicate FreeExpanded(g: Geometry, size: nat, target: nat, was: seq<Group>, x: nat)
    requires 0 < g.fpg
  {
    IsFree(g, was, x) || (size <= x < target && Quot(g.fpg, x) < |was|)
  }

  ghost predicate AllExpanded(g: Geometry, size: nat, target: nat, was: seq<Group>, from: nat, to: nat)
    requires 0 < g.fpg
  {
    forall x | from <= x < to :: FreeExpanded(g, size, target, was, x)
  }

  /** Expands, reserves and appends, adding each step's deltas to the totals. */
  method GrowCounts(g: Geometry, s: Shape, size: nat, target: nat, cgs: seq<Group>, csum: seq<Csum>, total: Csum, from: nat, to: nat)
    returns (ok: bool, cgs': seq<Group>, csum': seq<Csum>, total': Csum)
    requires ValidGeometry(g) && s.sblk <= s.dblk && 0 < size <= target && MetadataFits(g, s, size, target)
    requires CountsValid(g, Lens(g, size), size, cgs, csum, total) && from <= to && (from < to ==> to <= g.fpg)
    ensures ok <==> AllExpanded(g, size, target, cgs, from, to)
    ensures ok ==> CountsValid(g, Lens(g, target), target, cgs', csum', total')
    ensures ok ==> forall x: nat :: IsFree(g, cgs', x) <==> FreeGrown(g, s, size, target, cgs, from, to, x)
  {
    hide Quot, Times, IsFree, CountedTo, Lens, NewGroups;
    CountsSize(g, size, cgs, csum, total);
    cgs', csum', total' := ExpandLast(g, size, target, cgs, csum, total);
    ghost var mid := cgs';
    ExpandedAll(g, size, target, cgs, mid, from, to);
    ok := true;
    if from < to {
      ok, cgs', csum', total' := ReserveSummary(g, Lens(g, target), cgs', csum', total', from, to);
      if !ok {
        return;
      }
    }
    ghost var base := cgs';
    cgs', csum', total' := AppendGroups(g, s, target, cgs', csum', total');
    forall x: nat ensures IsFree(g, cgs', x) <==> FreeGrown(g, s, size, target, cgs, from, to, x) {
      GrownAt(g, s, size, target, cgs, mid, base, cgs', from, to, x);
    }
    GrownStart(g, s, size, target, cgs, from, to);
    AllCounted(g, target, cgs', csum', total');
  }

  lemma {:induction false} ExpandedAll(g: Geometry, size: nat, target: nat, was: seq<Group>, mid: seq<Group>, from: nat, to: nat)
    requires 0 < g.fpg
    requires forall x: nat :: IsFree(g, mid, x) <==> IsFree(g, was, x) || (size <= x < target && Quot(g.fpg, x) < |was|)
    ensures AllExpanded(g, size, target, was, from, to) <==> forall x | from <= x < to :: IsFree(g, mid, x)
  {
    hide Quot, Times, IsFree;
    forall x: nat ensures IsFree(g, mid, x) <==> FreeExpanded(g, size, target, was, x) {}
  }

  lemma {:induction false} GrownAt(g: Geometry, s: Shape, size: nat, target: nat, was: seq<Group>, mid: seq<Group>,
      base: seq<Group>, now: seq<Group>, from: nat, to: nat, x: nat)
    requires 0 < g.fpg && 0 < size <= target && |was| == |mid| == |base| == GroupsIn(g, size) && |now| == GroupsIn(g, target)
    requires IsFree(g, mid, x) <==> FreeExpanded(g, size, target, was, x)
    requires IsFree(g, base, x) <==> IsFree(g, mid, x) && !(from <= x < to)
    requires NewGroups(g, s, target, base, now) && (from < to ==> to <= g.fpg)
    ensures IsFree(g, now, x) <==> FreeGrown(g, s, size, target, was, from, to, x)
  {
    hide Times, Quot, IsFree;
    var q := Quot(g.fpg, x);
    GroupsFit(g, target, q);
    GroupsFit(g, size, q);
    assert 0 < |was| by { GroupsGrow(g, size, target); }
    if q > 0 { TimesMonotone(g.fpg, 0, q); }
    assert IsFree(g, now, x) <==> IsFree(g, base, x) || (|base| <= q < |now| && x < target && OutsideMeta(g, s, x));
  }

  lemma {:induction false} GrownStart(g: Geometry, s: Shape, size: nat, target: nat, was: seq<Group>, from: nat, to: nat)
    requires 0 < g.fpg && 0 < size && !IsFree(g, was, 0)
    ensures !FreeGrown(g, s, size, target, was, from, to, 0)
  {
  }

  method KeepRotor(g: Geometry, was: Group, cg: Group, ghost d: nat, ghost n: nat) returns (cg': Group)
    requires ValidGeometry(g) && Took(g, was, cg, d, n)
    ensures Took(g, was, cg', d, n) && cg'.nbfree == cg.nbfree && cg'.nffree == cg.nffree
  {
    cg' := cg.(rotor := was.rotor);
    SameCounters(g, cg, cg');
  }
}
