/** The slice as the allocator sees it: all cylinder groups, the cylinder summary area, the superblock
    totals and the fragment contents. */
module Volume {
  import opened GroupSpec
  import opened CylinderGroup
  import opened Ledger
  import opened Options
  import opened Scale

  /** Free-space counts of one group, as kept in the summary area and in the superblock. */
  datatype Csum = Csum(nbfree: int, nffree: int)

  /** Offset of group-local fragment `l` in its block. */
  function OffsetIn(f: nat, l: nat): (o: nat)
    requires BlockSize(f)
    ensures o < f && o <= l && Aligned(f, l - o)
  {
    if f == 1 then 0 else if f == 2 then l % 2 else if f == 4 then l % 4 else l % 8
  }

  lemma OffsetOf(f: nat, d: nat, o: nat)
    requires BlockSize(f) && Aligned(f, d) && o < f
    ensures OffsetIn(f, d + o) == o
  {
    BlocksApartOrSame(f, d, d + o - OffsetIn(f, d + o));
  }

  lemma BlocksApartOrSame(f: nat, d: nat, e: nat)
    requires Aligned(f, d) && Aligned(f, e) && -(f as int) < d - e < f
    ensures d == e
  {
    if d != e { BlocksApart(f, d, e); }
  }

  // ----- the free set -----

  predicate IsFree(g: Geometry, cgs: seq<Group>, x: nat)
    requires 0 < g.fpg
  {
    var c := Quot(g.fpg, x);
    c < |cgs| && x - Times(g.fpg, c) < |cgs[c].free| && cgs[c].free[x - Times(g.fpg, c)]
  }

  /** `n` consecutive fragments inside one block of one group; `lens` are the group lengths. */
  predicate InOneBlock(g: Geometry, lens: seq<nat>, x: nat, n: nat)
    requires ValidGeometry(g)
  {
    var c := Quot(g.fpg, x);
    var l := x - Times(g.fpg, c);
    c < |lens| && OffsetIn(g.frag, l) + n <= g.frag && l + n <= lens[c]
  }

  ghost predicate GroupsConsistent(g: Geometry, cgs: seq<Group>)
    requires ValidGeometry(g)
  {
    forall c | 0 <= c < |cgs| :: Consistent(g, cgs[c])
  }

  /** Group `c` has its fragments `[l, l+n)` set to `v`; nothing else in any bitmap changes. */
  lemma FreeAfterRange(g: Geometry, cgs: seq<Group>, cgs': seq<Group>, c: nat, l: nat, n: nat, v: bool, x: nat)
    requires ValidGeometry(g) && c < |cgs| && l + n <= g.fpg && l + n <= |cgs[c].free|
    requires |cgs'| == |cgs| && cgs' == cgs[c := cgs'[c]]
    requires cgs'[c].free == WithRange(cgs[c].free, l, n, v)
    ensures IsFree(g, cgs', x) == if Times(g.fpg, c) + l <= x < Times(g.fpg, c) + l + n then v else IsFree(g, cgs, x)
  {
    var k := Quot(g.fpg, x);
    if Times(g.fpg, c) + l <= x < Times(g.fpg, c) + l + n {
      QuotUnique(g.fpg, c, x - Times(g.fpg, c));
    }
  }

  // ----- sums over groups -----

  function SumWhole(cgs: seq<Group>): int {
    if |cgs| == 0 then 0 else SumWhole(cgs[..|cgs| - 1]) + cgs[|cgs| - 1].nbfree
  }

  function SumLoose(cgs: seq<Group>): int {
    if |cgs| == 0 then 0 else SumLoose(cgs[..|cgs| - 1]) + cgs[|cgs| - 1].nffree
  }

  lemma {:induction false} SumsUpdate(cgs: seq<Group>, c: nat, cg: Group)
    requires c < |cgs|
    ensures SumWhole(cgs[c := cg]) == SumWhole(cgs) + cg.nbfree - cgs[c].nbfree
    ensures SumLoose(cgs[c := cg]) == SumLoose(cgs) + cg.nffree - cgs[c].nffree
  {
    var n := |cgs| - 1;
    if c == n {
      assert cgs[c := cg][..n] == cgs[..n];
    } else {
      assert cgs[c := cg][..n] == cgs[..n][c := cg];
      SumsUpdate(cgs[..n], c, cg);
    }
  }

  lemma {:induction false} SomeWhole(cgs: seq<Group>) returns (c: nat)
    requires SumWhole(cgs) > 0
    ensures c < |cgs| && cgs[c].nbfree > 0
  {
    var n := |cgs| - 1;
    if cgs[n].nbfree > 0 {
      c := n;
    } else {
      c := SomeWhole(cgs[..n]);
    }
  }

  /** The group tried `i`-th when the rotation starts at group `p` of `n`. */
  function Turn(p: nat, i: nat, n: nat): (c: nat)
    requires 0 < n
    ensures c < n
  {
    (p + i) % n
  }

  /** Every group gets its turn. */
  lemma RotationCovers(p: nat, n: nat, c: nat) returns (i: nat)
    requires c < n
    ensures i < n && Turn(p, i, n) == c
  {
    var q, r := p / n, p % n;
    assert p == q * n + r;
    if r <= c {
      i := c - r;
      DivisionUnique(p + i, n, q, c);
    } else {
      i := c + n - r;
      assert (q + 1) * n == q * n + n;
      DivisionUnique(p + i, n, q + 1, c);
    }
  }

  /** How many groups after the preferred one group `c` comes, counting round. */
  function Distance(p: nat, c: nat, n: nat): nat
    requires 0 < n
  {
    (c - p) % n
  }

  lemma TurnDistance(p: nat, i: nat, n: nat)
    requires i < n
    ensures Distance(p, Turn(p, i, n), n) == i
  {
    var c := Turn(p, i, n);
    var q := (p + i) / n;
    assert p + i == q * n + c;
    DivisionUnique(c - p, n, -q, i);
  }

  /** Group `c` has a run of `n`, and no group that comes before it in the rotation has one. */
  ghost predicate NearestRun(g: Geometry, cgs: seq<Group>, preferred: nat, n: nat, c: nat)
    requires ValidGeometry(g)
  {
    && c < |cgs| && HasRun(g, cgs[c], n)
    && forall k | 0 <= k < |cgs| && HasRun(g, cgs[k], n) :: Distance(preferred, c, |cgs|) <= Distance(preferred, k, |cgs|)
  }

  /** The run at fragment `l` of the group is the first that serves. */
  ghost predicate FirstAt(g: Geometry, cg: Group, l: nat, n: nat)
    requires ValidGeometry(g)
  {
    exists d: nat, o: nat :: l == d + o && FreeRun(g.frag, cg.free, d, o, n) && FirstFit(g, cg, d, o, n)
  }

  /** Fragment `x` is where the search has to end: in the nearest group, at the first run there. */
  ghost predicate Chosen(g: Geometry, cgs: seq<Group>, preferred: nat, n: nat, x: nat)
    requires ValidGeometry(g)
  {
    var c := Quot(g.fpg, x);
    NearestRun(g, cgs, preferred, n, c) && FirstAt(g, cgs[c], x - Times(g.fpg, c), n)
  }

  /** What never changes after mount. */
  datatype Layout = Layout(g: Geometry, lens: seq<nat>, fs: nat, entries: nat, fragCount: nat)

  predicate ValidLayout(l: Layout) {
    && ValidGeometry(l.g) && 0 < l.fs && 0 < l.entries && 4 * l.entries == Times(l.fs, l.g.frag)
    && l.fragCount < 0x1_0000_0000
    && forall c | 0 <= c < |l.lens| :: Times(l.g.fpg, c) + l.lens[c] <= l.fragCount && l.lens[c] <= l.g.fpg
  }

  /** Moving the two totals moves the number of free fragments. */
  lemma AvailMoves(f: nat, whole: int, loose: int, dWhole: int, dLoose: int)
    ensures (whole + dWhole) * f + (loose + dLoose) == whole * f + loose + (dWhole * f + dLoose)
  {
  }

  datatype Errno = Einval | Enospc | Efbig | Eio

  function ToErrno(e: Error): Errno {
    match e case EINVAL => Einval case ENOSPC => Enospc
  }

  /** The volume. Metadata that the allocator edits is held decoded; `data` is the byte contents of
      all fragments, addressed by fragment number times fragment size. */
  class Volume {
    const g: Geometry
    const fsize: nat          // bytes per fragment
    const spf: nat            // sectors per fragment
    const entries: nat        // pointers in an index block
    const fragCount: nat
    const dataFrags: nat      // fs_dsize, the base of the reserve
    const minfree: nat
    const unprivileged: bool
    const lens: seq<nat>      // fragments in each group
    var cgs: seq<Group>
    var csum: seq<Csum>
    var total: Csum
    var data: seq<Byte>

    ghost predicate Valid()
      reads this
    {
      && ValidLayout(Lay()) && 0 < spf
      && CountsValid(g, lens, fragCount, cgs, csum, total)
      && |data| == Times(fsize, fragCount)
    }

    function Lay(): Layout {
      Layout(g, lens, fsize, entries, fragCount)
    }

    /** A volume whose counts hold, as the formatter and the resizer leave them. */
    constructor Mount(l: Layout, spf: nat, dataFrags: nat, minfree: nat, unprivileged: bool,
        cgs: seq<Group>, csum: seq<Csum>, total: Csum, data: seq<Byte>)
      requires ValidLayout(l) && 0 < spf && CountsValid(l.g, l.lens, l.fragCount, cgs, csum, total)
      requires |data| == Times(l.fs, l.fragCount)
      ensures Valid() && Lay() == l && this.cgs == cgs && this.csum == csum && this.total == total && this.data == data
      ensures this.spf == spf && this.dataFrags == dataFrags && this.minfree == minfree && this.unprivileged == unprivileged
    {
      g, lens, fsize, entries, fragCount := l.g, l.lens, l.fs, l.entries, l.fragCount;
      this.spf, this.dataFrags, this.minfree, this.unprivileged := spf, dataFrags, minfree, unprivileged;
      this.cgs, this.csum, this.total, this.data := cgs, csum, total, data;
    }

    ghost function Free(): iset<nat>
      requires 0 < g.fpg
      reads this
    {
      iset x: nat | IsFree(g, cgs, x)
    }

    /** Exactly the fragments `[x, x+n)` changed state, to `v`. */
    twostate predicate FreeChanged(x: nat, n: nat, v: bool)
      requires 0 < g.fpg
      reads this
    {
      Flipped(old(Free()), Free(), x, n, v)
    }

    /** The free fragments that the totals count. */
    function Avail(): int
      reads this
    {
      total.nbfree * g.frag + total.nffree
    }

    /** At most `blocks` whole free blocks were broken up, and at most `frags` free fragments are gone. */
    twostate predicate Spent(blocks: nat, frags: nat)
      reads this
    {
      old(total.nbfree) <= total.nbfree + blocks && old(Avail()) <= Avail() + frags
    }

    /** There are `blocks` whole free blocks, and the reserve allows `frags` fragments. */
    predicate Affords(blocks: nat, frags: nat)
      reads this
    {
      blocks <= total.nbfree && ReserveAllows(frags)
    }

    /** The same in whole blocks. */
    twostate predicate SpentBlocks(n: nat)
      reads this
    {
      Spent(n, Times(g.frag, n))
    }

    predicate AffordsBlocks(n: nat)
      reads this
    {
      Affords(n, Times(g.frag, n))
    }

    /** No group has a run of `n` fragments inside one block, or the reserve forbids to take one. */
    ghost predicate Short(n: nat)
      requires ValidGeometry(g)
      reads this
    {
      !ReserveAllows(n) || !AnyRun(n)
    }

    /** The errors of an operation that asked for runs of the lengths `ns`: ENOSPC when the volume is short
        of one of them, EINVAL when nothing is ever granted. */
    ghost predicate Refusal(e: Errno, ns: set<nat>)
      requires ValidGeometry(g)
      reads this
    {
      exists n | n in ns :: Short(n) && (e == Enospc || (e == Einval && unprivileged && minfree > 99))
    }

    lemma RefusalFor(e: Errno, n: nat)
      requires ValidGeometry(g) && Short(n) && (e == Enospc || (e == Einval && unprivileged && minfree > 99))
      ensures Refusal(e, {n})
    {
      hide Short;
      assert n in {n};
    }

    lemma RefusalMore(e: Errno, ns: set<nat>, ms: set<nat>)
      requires ValidGeometry(g) && Refusal(e, ns) && ns <= ms
      ensures Refusal(e, ms)
    {
      hide Short;
    }

    /** `reserve_available`: unprivileged writers keep `minfree` percent of the data fragments free. */
    predicate ReserveAllows(needed: nat)
      reads this
    {
      !unprivileged ||
      (minfree <= 99 && needed + dataFrags * minfree / 100 <= Avail())
    }

    method ReserveAvailable(needed: nat) returns (r: Option<Errno>)
      requires Valid()
      ensures r.None? <==> ReserveAllows(needed)
      ensures r.Some? ==> unprivileged && r.value == if minfree > 99 then Einval else Enospc
    {
      if !unprivileged {
        return None;
      }
      if minfree > 99 {
        return Some(Einval);
      }
      var available := total.nbfree * g.frag + total.nffree;
      var reserve := dataFrags * minfree / 100;
      if available < reserve || needed > available - reserve {
        return Some(Enospc);
      }
      return None;
    }

    /** Writes a group back and moves the summary entry and the superblock totals by its change. */
    method StoreGroup(c: nat, cg: Group, dWhole: int, dLoose: int, ghost l: nat, ghost x: nat, ghost n: nat, ghost v: bool)
      requires Valid() && c < |cgs| && GroupStep(g, cgs[c], cg, dWhole, dLoose, l, n, v)
      requires x == Times(g.fpg, c) + l && (v ==> x > 0)
      modifies this`cgs, this`csum, this`total
      ensures Valid() && FreeChanged(x, n, v)
      ensures total == Csum(old(total.nbfree) + dWhole, old(total.nffree) + dLoose)
      ensures Avail() == old(Avail()) + (dWhole * g.frag + dLoose)
    {
      hide OffsetIn, Times, Quot, Aligned, Consistent, WithRange, IsFree, SumWhole, SumLoose;
      StoreKeeps(g, lens, fragCount, cgs, csum, total, c, cgs[c := cg], dWhole, dLoose, l, n, v);
      StoreFree(g, cgs, c, cgs[c := cg], dWhole, dLoose, l, n, v);
      AvailMoves(g.frag, total.nbfree, total.nffree, dWhole, dLoose);
      cgs := cgs[c := cg];
      total := Csum(total.nbfree + dWhole, total.nffree + dLoose);
      csum := csum[c := Csum(csum[c].nbfree + dWhole, csum[c].nffree + dLoose)];
    }

    // ----- allocation -----

    /** The fragments `[x, x+n)` were free, are now used, and sit inside one block. */
    twostate predicate Taken(x: nat, n: nat)
      requires ValidGeometry(g)
      reads this
    {
      && TakenFrom(old(Free()), Free(), x, n)
      && InOneBlock(g, lens, x, n) && 0 < x
    }

    method StoreTaken(c: nat, cg: Group, dWhole: int, dLoose: int, ghost l: nat, ghost x: nat, ghost n: nat)
      requires Valid() && c < |cgs| && GroupStep(g, cgs[c], cg, dWhole, dLoose, l, n, false)
      requires x == Times(g.fpg, c) + l && RunAt(g, lens, cgs, x, n) && 0 < x
      modifies this`cgs, this`csum, this`total
      ensures Valid() && Taken(x, n)
      ensures total.nbfree == old(total.nbfree) + dWhole && Avail() == old(Avail()) + (dWhole * g.frag + dLoose)
    {
      assert forall y | x <= y < x + n :: y in Free();
      StoreGroup(c, cg, dWhole, dLoose, l, x, n, false);
    }

    ghost predicate AnyRun(n: nat)
      requires ValidGeometry(g)
      reads this
    {
      exists c :: 0 <= c < |cgs| && HasRun(g, cgs[c], n)
    }

    method AllocateInGroup(c: nat, n: nat) returns (r: Grant)
      requires Valid() && c < |cgs|
      modifies this`cgs, this`csum, this`total
      ensures Valid()
      ensures r == Denied(Einval) <==> !(1 <= n <= g.frag)
      ensures r == Denied(Enospc) <==> 1 <= n <= g.frag && !HasRun(g, old(cgs)[c], n)
      ensures r.Denied? ==> unchanged(this) && r.error in {Einval, Enospc}
      ensures r.Got? ==> Taken(r.frag, n) && (n == g.frag ==> StartsBlock(g, r.frag))
      ensures r.Got? ==> FirstAt(g, old(cgs)[c], r.frag - Times(g.fpg, Quot(g.fpg, r.frag)), n)
      ensures r.Got? ==> Quot(g.fpg, r.frag) == c && Spent(1, n) && Avail() == old(Avail()) - n
    {
      hide FirstAt, HasRun, Quot, Times, RunAt, GroupStep;
      var grant := GroupAllocate(g, lens, cgs, c, n);
      if grant.Refused? {
        return Denied(ToErrno(grant.error));
      }
      var x := Address(c, grant.start);
      StoreTaken(c, grant.cg, grant.cg.nbfree - cgs[c].nbfree, grant.cg.nffree - cgs[c].nffree, grant.start, x, n);
      return Got(x);
    }

    /** `cg * fs_fpg + start`. */
    function Address(c: nat, l: nat): (x: nat)
      ensures x == Times(g.fpg, c) + l
    {
      TimesIsProduct(g.fpg, c);
      c * g.fpg + l
    }

    lemma NoneWhole(n: nat)
      requires Valid() && n <= g.frag && !AnyRun(n)
      ensures total.nbfree <= 0
    {
      hide Consistent;
      if total.nbfree > 0 {
        var c := SomeWhole(cgs);
        CylinderGroup.WholeHasRun(g, cgs[c], n);
      }
    }

    /** Tries the preferred group first and then the others in rotation. With the reserve respected it
        fails exactly when no group has a free run of `n` fragments inside one block. */
    method AllocateFrags(preferred: nat, n: nat) returns (r: Grant)
      requires Valid()
      modifies this`cgs, this`csum, this`total
      ensures Valid()
      ensures !old(ReserveAllows(n)) ==> r == Denied(if minfree > 99 then Einval else Enospc)
      ensures old(ReserveAllows(n)) ==> (r == Denied(Einval) <==> !(1 <= n <= g.frag))
      ensures old(ReserveAllows(n)) ==> (r == Denied(Enospc) <==> 1 <= n <= g.frag && !old(AnyRun(n)))
      ensures r.Denied? ==> unchanged(this) && (1 <= n <= g.frag ==> Refusal(r.error, {n})) && r.error in {Einval, Enospc}
      ensures r.Got? ==> Taken(r.frag, n) && (n == g.frag ==> StartsBlock(g, r.frag))
      ensures r.Got? ==> Chosen(g, old(cgs), preferred, n, r.frag)
      ensures r.Got? ==> Spent(1, n) && Avail() == old(Avail()) - n
      ensures 1 <= n <= g.frag && old(Affords(1, n)) ==> r.Got?
    {
      hide FirstAt, HasRun, Quot, Times, Turn, Distance, Consistent;
      var allowed := ReserveAvailable(n);
      if allowed.Some? {
        RefusalFor(allowed.value, n);
        return Denied(allowed.value);
      }
      for i := 0 to |cgs|
        invariant unchanged(this)
        invariant 1 <= n <= g.frag || i == 0
        invariant forall j | 0 <= j < i :: !HasRun(g, cgs[Turn(preferred, j, |cgs|)], n)
      {
        var c := Turn(preferred, i, |cgs|);
        r := AllocateInGroup(c, n);
        if r != Denied(Enospc) {
          Nearest(g, old(cgs), preferred, i, n);
          return;
        }
      }
      forall c | 0 <= c < |cgs| ensures !HasRun(g, cgs[c], n) {
        var i := RotationCovers(preferred, |cgs|, c);
      }
      NoneWhole(n);
      RefusalFor(Enospc, n);
      return Denied(Enospc);
    }

    /** The run can grow to `newFrags` fragments where it is. */
    predicate CanExtend(x: nat, oldFrags: nat, newFrags: nat)
      requires ValidGeometry(g)
      reads this
    {
      InOneBlock(g, lens, x, newFrags) && forall y | x + oldFrags <= y < x + newFrags :: IsFree(g, cgs, y)
    }

    /** The run cannot be extended, or the reserve forbids it. */
    predicate Stuck(x: nat, oldFrags: nat, newFrags: nat)
      requires ValidGeometry(g) && oldFrags <= newFrags
      reads this
    {
      !CanExtend(x, oldFrags, newFrags) || !ReserveAllows(newFrags - oldFrags)
    }

    /** Grows a used run in place. With the reserve respected it fails exactly when the run would leave its
        block or its group, or meet a used fragment. */
    method ExtendRun(x: nat, oldFrags: nat, newFrags: nat) returns (r: Option<Errno>)
      requires Valid() && 0 < oldFrags && InOneBlock(g, lens, x, oldFrags)
      requires forall y | x <= y < x + oldFrags :: !IsFree(g, cgs, y)
      modifies this`cgs, this`csum, this`total
      ensures Valid()
      ensures r.Some? ==> unchanged(this) && r.value in {Einval, Enospc}
      ensures newFrags <= oldFrags || newFrags > g.frag ==> r == Some(Einval)
      ensures oldFrags < newFrags <= g.frag && !old(ReserveAllows(newFrags - oldFrags)) ==>
        r == Some(if minfree > 99 then Einval else Enospc)
      ensures oldFrags < newFrags <= g.frag && old(ReserveAllows(newFrags - oldFrags)) ==>
        (r == Some(Enospc) <==> !old(CanExtend(x, oldFrags, newFrags))) && r != Some(Einval)
      ensures r.None? ==> oldFrags < newFrags <= g.frag && Taken(x + oldFrags, newFrags - oldFrags)
      ensures r.None? ==> InOneBlock(g, lens, x, newFrags)
      ensures r.None? ==> total.nbfree == old(total.nbfree) && Avail() == old(Avail()) - (newFrags - oldFrags)
    {
      if newFrags <= oldFrags || newFrags > g.frag {
        return Some(Einval);
      }
      var allowed := ReserveAvailable(newFrags - oldFrags);
      if allowed.Some? {
        return allowed;
      }
      r := ExtendInPlace(x, oldFrags, newFrags);
    }

    method ExtendInPlace(x: nat, oldFrags: nat, newFrags: nat) returns (r: Option<Errno>)
      requires Valid() && 0 < oldFrags < newFrags <= g.frag && InOneBlock(g, lens, x, oldFrags)
      requires forall y | x <= y < x + oldFrags :: !IsFree(g, cgs, y)
      modifies this`cgs, this`csum, this`total
      ensures Valid()
      ensures r.Some? ==> unchanged(this) && r.value == Enospc
      ensures r.None? <==> old(CanExtend(x, oldFrags, newFrags))
      ensures r.None? ==> Taken(x + oldFrags, newFrags - oldFrags) && InOneBlock(g, lens, x, newFrags)
      ensures r.None? ==> total.nbfree == old(total.nbfree) && Avail() == old(Avail()) - (newFrags - oldFrags)
    {
      hide OffsetIn, Times, Quot, Aligned, Consistent, WithRange, IsFree, SumWhole, SumLoose;
      var c, l := Locate(x);
      var u := GroupExtend(g, lens, cgs, c, x, l, oldFrags, newFrags);
      if u.Failed? {
        return Some(ToErrno(u.error));
      }
      StoreTaken(c, u.cg, 0, u.cg.nffree - cgs[c].nffree, l + oldFrags, x + oldFrags, newFrags - oldFrags);
      return None;
    }

    /** Group and group-local number of a fragment, by division as in the source. */
    method Locate(x: nat) returns (c: nat, l: nat)
      requires Valid()
      ensures c == Quot(g.fpg, x) && l == x - Times(g.fpg, c) && l < g.fpg
    {
      QuotIsDivision(g.fpg, x);
      c, l := x / g.fpg, x % g.fpg;
    }

    /** Frees a run. The caller guarantees that it stays inside one block; a fragment that is already
        free is detected. */
    method FreeRun(x: nat, n: nat) returns (r: Option<Errno>)
      requires Valid() && 0 < x && InOneBlock(g, lens, x, n)
      modifies this`cgs, this`csum, this`total
      ensures Valid()
      ensures r.Some? <==> n == 0 || exists y :: x <= y < x + n && IsFree(g, old(cgs), y)
      ensures r.Some? ==> r == Some(Einval) && unchanged(this)
      ensures r.None? ==> FreeChanged(x, n, true)
      ensures r.None? ==> Spent(0, 0) && Avail() == old(Avail()) + n
    {
      hide OffsetIn, Times, Quot, Aligned, Consistent, SumWhole, SumLoose, WithRange;
      var c, l := Locate(x);
      var o := OffsetIn(g.frag, l);
      var cg := cgs[c];
      LocalRun(g, lens, cgs, x, n);
      var u, dWhole, dLoose := CylinderGroup.FreeRunInGroup(g, cg, l - o, o, n);
      match u
      case Failed(e) =>
        r := Some(Einval);
      case Updated(cg') =>
        StoreGroup(c, cg', dWhole, dLoose, l, x, n, true);
        r := None;
    }
  }

  /** The first group of the rotation that has a run. */
  lemma Nearest(g: Geometry, cgs: seq<Group>, preferred: nat, i: nat, n: nat)
    requires ValidGeometry(g) && i < |cgs|
    requires forall j | 0 <= j < i :: !HasRun(g, cgs[Turn(preferred, j, |cgs|)], n)
    ensures var c := Turn(preferred, i, |cgs|);
      HasRun(g, cgs[c], n) ==> NearestRun(g, cgs, preferred, n, c)
  {
    hide HasRun, Turn, Distance;
    TurnDistance(preferred, i, |cgs|);
    forall k | 0 <= k < |cgs| && HasRun(g, cgs[k], n)
      ensures Distance(preferred, Turn(preferred, i, |cgs|), |cgs|) <= Distance(preferred, k, |cgs|)
    {
      var j := RotationCovers(preferred, |cgs|, k);
      TurnDistance(preferred, j, |cgs|);
    }
  }

  datatype Grant = Got(frag: nat) | Denied(error: Errno)

  /** A fragment at the start of a block of its group. */
  predicate StartsBlock(g: Geometry, x: nat)
    requires ValidGeometry(g)
  {
    OffsetIn(g.frag, x - Times(g.fpg, Quot(g.fpg, x))) == 0
  }

  /** One group's bitmap had `[l, l+n)` set to `v` and its two totals moved. */
  ghost predicate GroupStep(g: Geometry, cg: Group, cg': Group, dWhole: int, dLoose: int, l: int, n: nat, v: bool)
    requires ValidGeometry(g)
  {
    && Consistent(g, cg') && cg'.ndblk == cg.ndblk
    && cg'.nbfree == cg.nbfree + dWhole && cg'.nffree == cg.nffree + dLoose
    && 0 <= l && l + n <= g.fpg && l + n <= |cg.free|
    && cg'.free == WithRange(cg.free, l, n, v)
  }

  /** The group-level allocation, in volume terms. */
  method GroupAllocate(g: Geometry, ghost lens: seq<nat>, cgs: seq<Group>, c: nat, n: nat) returns (r: GroupGrant)
    requires ValidGeometry(g) && c < |cgs| == |lens| && Consistent(g, cgs[c]) && cgs[c].ndblk == lens[c] && !IsFree(g, cgs, 0)
    ensures r == Refused(EINVAL) <==> !(1 <= n <= g.frag)
    ensures r == Refused(ENOSPC) <==> 1 <= n <= g.frag && !HasRun(g, cgs[c], n)
    ensures r.Granted? ==> FirstAt(g, cgs[c], r.start, n)
    ensures r.Granted? ==> var x := Times(g.fpg, c) + r.start;
      && GroupStep(g, cgs[c], r.cg, r.cg.nbfree - cgs[c].nbfree, r.cg.nffree - cgs[c].nffree, r.start, n, false)
      && RunAt(g, lens, cgs, x, n) && 0 < x && (n == g.frag ==> StartsBlock(g, x)) && Quot(g.fpg, x) == c
      && cgs[c].nbfree - 1 <= r.cg.nbfree
      && (r.cg.nbfree - cgs[c].nbfree) * g.frag + (r.cg.nffree - cgs[c].nffree) + n == 0
  {
    hide OffsetIn, Times, Quot, Aligned, WithRange;
    ghost var d, o;
    r, d, o := CylinderGroup.AllocateInGroup(g, cgs[c], n);
    if r.Granted? {
      TakenRun(g, lens, cgs, c, d, o, n);
      assert IsFree(g, cgs, Times(g.fpg, c) + r.start);
      QuotUnique(g.fpg, c, r.start);
    }
  }

  method GroupExtend(g: Geometry, ghost lens: seq<nat>, cgs: seq<Group>, c: nat, ghost x: nat, l: nat, oldFrags: nat, newFrags: nat)
    returns (u: GroupUpdate)
    requires ValidGeometry(g) && c < |cgs| == |lens| && Consistent(g, cgs[c]) && cgs[c].ndblk == lens[c]
    requires c == Quot(g.fpg, x) && l == x - Times(g.fpg, c) && 0 < oldFrags < newFrags <= g.frag
    requires InOneBlock(g, lens, x, oldFrags)
    requires forall y | x <= y < x + oldFrags :: !IsFree(g, cgs, y)
    ensures u.Failed? ==> u == Failed(ENOSPC)
    ensures u.Updated? <==> InOneBlock(g, lens, x, newFrags) && forall y | x + oldFrags <= y < x + newFrags :: IsFree(g, cgs, y)
    ensures u.Updated? ==>
      && GroupStep(g, cgs[c], u.cg, 0, u.cg.nffree - cgs[c].nffree, l + oldFrags, newFrags - oldFrags, false)
      && u.cg.nffree - cgs[c].nffree == -(newFrags - oldFrags)
      && RunAt(g, lens, cgs, x + oldFrags, newFrags - oldFrags) && InOneBlock(g, lens, x, newFrags)
  {
    hide OffsetIn, Times, Quot, Aligned, WithRange, IsFree;
    LocalRun(g, lens, cgs, x, oldFrags);
    var o := OffsetIn(g.frag, l);
    u := CylinderGroup.ExtendRun(g, cgs[c], l - o, o, oldFrags, newFrags);
    if u.Updated? {
      ExtendedRun(g, lens, cgs, x, oldFrags, newFrags);
    } else {
      assert u.error == EINVAL || u.error == ENOSPC;
      ExtendableRun(g, lens, cgs, x, oldFrags, newFrags);
    }
  }

  /** A run with room and free fragments behind it, seen from its group. */
  lemma ExtendableRun(g: Geometry, lens: seq<nat>, cgs: seq<Group>, x: nat, oldFrags: nat, newFrags: nat)
    requires ValidGeometry(g) && |cgs| == |lens| && 0 < oldFrags < newFrags && InOneBlock(g, lens, x, oldFrags)
    requires var c := Quot(g.fpg, x); Consistent(g, cgs[c]) && cgs[c].ndblk == lens[c]
    ensures InOneBlock(g, lens, x, newFrags) && (forall y | x + oldFrags <= y < x + newFrags :: IsFree(g, cgs, y)) ==>
      var c := Quot(g.fpg, x); var l := x - Times(g.fpg, c); var o := OffsetIn(g.frag, l);
      CylinderGroup.FreeRun(g.frag, cgs[c].free, l - o, o + oldFrags, newFrags - oldFrags)
  {
    hide OffsetIn, Times, Quot, IsFree, Consistent;
    var c := Quot(g.fpg, x);
    var l := x - Times(g.fpg, c);
    if InOneBlock(g, lens, x, newFrags) && forall y | x + oldFrags <= y < x + newFrags :: IsFree(g, cgs, y) {
      LocalRun(g, lens, cgs, x, newFrags);
      RangeFreeAt(g, cgs, c, l + oldFrags, newFrags - oldFrags, true);
    }
  }

  lemma ExtendedRun(g: Geometry, lens: seq<nat>, cgs: seq<Group>, x: nat, oldFrags: nat, newFrags: nat)
    requires ValidGeometry(g) && |cgs| == |lens| && 0 < oldFrags < newFrags && InOneBlock(g, lens, x, oldFrags)
    requires var c := Quot(g.fpg, x); Consistent(g, cgs[c]) && cgs[c].ndblk == lens[c]
    requires var c := Quot(g.fpg, x); var l := x - Times(g.fpg, c); var o := OffsetIn(g.frag, l);
      CylinderGroup.FreeRun(g.frag, cgs[c].free, l - o, o + oldFrags, newFrags - oldFrags)
    ensures RunAt(g, lens, cgs, x + oldFrags, newFrags - oldFrags) && InOneBlock(g, lens, x, newFrags)
  {
    hide OffsetIn, Times, Quot, Aligned, IsFree, Consistent;
    var c := Quot(g.fpg, x);
    var l := x - Times(g.fpg, c);
    var o := OffsetIn(g.frag, l);
    assert Times(g.fpg, c) + (l - o) + (o + oldFrags) == x + oldFrags && Times(g.fpg, c) + (l - o) + o == x;
    TakenRun(g, lens, cgs, c, l - o, o + oldFrags, newFrags - oldFrags);
    BlockAt(g, lens, c, l - o, o, newFrags);
  }

  /** Every group's counters are the ones its bitmap defines, the summary area repeats them, and the
      superblock totals are their sums. Fragment zero, in the boot area, is never free. */
  ghost predicate CountsValid(g: Geometry, lens: seq<nat>, fragCount: nat, cgs: seq<Group>, csum: seq<Csum>, total: Csum)
    requires ValidGeometry(g)
  {
    && 0 < |cgs| == |csum| == |lens|
    && GroupsConsistent(g, cgs)
    && (forall c | 0 <= c < |cgs| :: cgs[c].ndblk == lens[c])
    && (forall c | 0 <= c < |cgs| :: csum[c] == Csum(cgs[c].nbfree, cgs[c].nffree))
    && total == Csum(SumWhole(cgs), SumLoose(cgs))
    && (forall c | 0 <= c < |lens| :: Times(g.fpg, c) + lens[c] <= fragCount)
    && !IsFree(g, cgs, 0)
  }

  lemma StoreFree(g: Geometry, cgs: seq<Group>, c: nat, cgs': seq<Group>, dWhole: int, dLoose: int, l: nat, n: nat, v: bool)
    requires ValidGeometry(g) && c < |cgs| && |cgs'| == |cgs| && cgs' == cgs[c := cgs'[c]]
    requires GroupStep(g, cgs[c], cgs'[c], dWhole, dLoose, l, n, v)
    ensures var x := Times(g.fpg, c) + l;
      forall y: nat :: IsFree(g, cgs', y) == if x <= y < x + n then v else IsFree(g, cgs, y)
  {
    var x := Times(g.fpg, c) + l;
    forall y: nat ensures IsFree(g, cgs', y) == if x <= y < x + n then v else IsFree(g, cgs, y) {
      FreeAfterRange(g, cgs, cgs', c, l, n, v, y);
    }
  }

  lemma StoreKeeps(g: Geometry, lens: seq<nat>, fragCount: nat, cgs: seq<Group>, csum: seq<Csum>, total: Csum,
      c: nat, cgs': seq<Group>, dWhole: int, dLoose: int, l: nat, n: nat, v: bool)
    requires ValidGeometry(g) && CountsValid(g, lens, fragCount, cgs, csum, total) && c < |cgs|
    requires |cgs'| == |cgs| && cgs' == cgs[c := cgs'[c]]
    requires GroupStep(g, cgs[c], cgs'[c], dWhole, dLoose, l, n, v) && (v ==> Times(g.fpg, c) + l > 0)
    ensures CountsValid(g, lens, fragCount, cgs', csum[c := Csum(csum[c].nbfree + dWhole, csum[c].nffree + dLoose)],
                        Csum(total.nbfree + dWhole, total.nffree + dLoose))
  {
    hide OffsetIn, Times, Quot, Aligned, Consistent, WithRange, IsFree, SumWhole, SumLoose;
    SumsUpdate(cgs, c, cgs'[c]);
    FreeAfterRange(g, cgs, cgs', c, l, n, v, 0);
  }

  lemma IsFreeAt(g: Geometry, cgs: seq<Group>, c: nat, l: nat)
    requires l < g.fpg && c < |cgs|
    ensures IsFree(g, cgs, Times(g.fpg, c) + l) <==> l < |cgs[c].free| && cgs[c].free[l]
  {
    QuotUnique(g.fpg, c, l);
  }

  /** The bits of one group, in volume addresses. */
  lemma RangeFreeAt(g: Geometry, cgs: seq<Group>, c: nat, l: nat, n: nat, v: bool)
    requires 0 < g.fpg && c < |cgs| && l + n <= g.fpg && l + n <= |cgs[c].free|
    ensures RangeIs(cgs[c].free, l, n, v) <==>
      forall y | Times(g.fpg, c) + l <= y < Times(g.fpg, c) + l + n :: IsFree(g, cgs, y) == v
  {
    var b := Times(g.fpg, c);
    forall i | l <= i < l + n ensures IsFree(g, cgs, b + i) == cgs[c].free[i] {
      IsFreeAt(g, cgs, c, i);
    }
    if forall y | b + l <= y < b + l + n :: IsFree(g, cgs, y) == v {
      forall i | l <= i < l + n ensures cgs[c].free[i] == v { assert IsFree(g, cgs, b + i) == v; }
    }
    if RangeIs(cgs[c].free, l, n, v) {
      forall y | b + l <= y < b + l + n ensures IsFree(g, cgs, y) == v { assert cgs[c].free[y - b] == v; }
    }
  }

  /** A free run of one group, in volume addresses. */
  lemma TakenRun(g: Geometry, lens: seq<nat>, cgs: seq<Group>, c: nat, d: nat, o: nat, n: nat)
    requires ValidGeometry(g) && c < |cgs| == |lens| && Consistent(g, cgs[c]) && cgs[c].ndblk == lens[c] && 0 < n
    requires CylinderGroup.FreeRun(g.frag, cgs[c].free, d, o, n)
    ensures d + o + n <= lens[c] <= g.fpg
    ensures RunAt(g, lens, cgs, Times(g.fpg, c) + d + o, n)
    ensures n == g.frag ==> StartsBlock(g, Times(g.fpg, c) + d + o)
  {
    RunBelowLimit(g, cgs[c], d, o, n);
    BlockAt(g, lens, c, d, o, n);
    RangeFreeAt(g, cgs, c, d + o, n, true);
  }

  lemma BlockAt(g: Geometry, lens: seq<nat>, c: nat, d: nat, o: nat, n: nat)
    requires ValidGeometry(g) && c < |lens| && Aligned(g.frag, d) && 0 < n && o + n <= g.frag
    requires d + o + n <= lens[c] <= g.fpg
    ensures InOneBlock(g, lens, Times(g.fpg, c) + d + o, n)
    ensures n == g.frag ==> StartsBlock(g, Times(g.fpg, c) + d + o)
  {
    QuotUnique(g.fpg, c, d + o);
    OffsetOf(g.frag, d, o);
  }

  /** A free run inside one block. */
  predicate RunAt(g: Geometry, lens: seq<nat>, cgs: seq<Group>, x: nat, n: nat)
    requires ValidGeometry(g)
  {
    InOneBlock(g, lens, x, n) && forall y | x <= y < x + n :: IsFree(g, cgs, y)
  }

  /** A run inside one block, seen from its group. */
  lemma LocalRun(g: Geometry, lens: seq<nat>, cgs: seq<Group>, x: nat, n: nat)
    requires ValidGeometry(g) && |cgs| == |lens| && InOneBlock(g, lens, x, n)
    requires var c := Quot(g.fpg, x); Consistent(g, cgs[c]) && cgs[c].ndblk == lens[c]
    ensures var c := Quot(g.fpg, x); var l := x - Times(g.fpg, c);
      && InMap(g, cgs[c], l - OffsetIn(g.frag, l)) && l + n <= |cgs[c].free| && l + n <= g.fpg
      && (RangeIs(cgs[c].free, l, n, false) <==> forall y | x <= y < x + n :: !IsFree(g, cgs, y))
  {
    var c := Quot(g.fpg, x);
    var l := x - Times(g.fpg, c);
    AlignedInMap(g, l - OffsetIn(g.frag, l));
    RangeFreeAt(g, cgs, c, l, n, false);
  }

  /** A later part of a run is inside the same block. */
  lemma SubRun(g: Geometry, lens: seq<nat>, x: nat, n: nat, k: nat)
    requires ValidGeometry(g) && InOneBlock(g, lens, x, n) && k < n && lens[Quot(g.fpg, x)] <= g.fpg
    ensures InOneBlock(g, lens, x + k, n - k) && InOneBlock(g, lens, x, k)
  {
    hide OffsetIn, Times, Quot;
    var c := Quot(g.fpg, x);
    var l := x - Times(g.fpg, c);
    var o := OffsetIn(g.frag, l);
    assert Times(g.fpg, c) + (l - o) + (o + k) == x + k;
    BlockAt(g, lens, c, l - o, o + k, n - k);
  }
}
