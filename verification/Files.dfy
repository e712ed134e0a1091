/** A file's blocks: twelve direct runs and three indirect trees, seen from the inode. */
module Files {
  import opened Scale
  import opened Ledger
  import opened Volume
  import opened BlockTree
  import opened IndirectBlocks

  const DIRECT: nat := 12

  datatype File = File(db: seq<nat>, trees: seq<Tree>)

  function FileOf(l: Layout, d: seq<Byte>, db: seq<nat>, ib: seq<nat>): File
    requires ValidLayout(l) && OnDisk(l, d) && |ib| == 3
  {
    File(db, [Load(l, d, ib[0], 1), Load(l, d, ib[1], 2), Load(l, d, ib[2], 3)])
  }

  // ----- from logical blocks to pointers -----

  datatype Place = Direct(i: nat) | Indirect(slot: nat, idx: nat) | Beyond

  /** The walk over the three indirect slots, subtracting each span in turn. */
  function Route(n: nat, slot: nat, local: nat): (w: Place)
    requires 0 < n && slot <= 3
    ensures !w.Direct? && (w.Indirect? ==> slot <= w.slot < 3 && w.idx < Span(n, w.slot + 1))
    decreases 3 - slot
  {
    if slot == 3 then Beyond
    else if local < Span(n, slot + 1) then Indirect(slot, local)
    else Route(n, slot + 1, local - Span(n, slot + 1))
  }

  function Where(n: nat, b: nat): (w: Place)
    requires 0 < n
    ensures w.Direct? ==> w.i < DIRECT
    ensures w.Indirect? ==> w.slot < 3 && w.idx < Span(n, w.slot + 1)
  {
    if b < DIRECT then Direct(b) else Route(n, 0, b - DIRECT)
  }

  /** The first logical block of an indirect slot. */
  function Base(n: nat, slot: nat): nat
    requires 0 < n
  {
    if slot == 0 then DIRECT else Base(n, slot - 1) + Span(n, slot)
  }

  /** The walk finds the slot whose range holds the block. */
  lemma {:induction false} RouteExact(n: nat, slot: nat, local: nat)
    requires 0 < n && slot <= 3
    ensures var w := Route(n, slot, local);
      && (w.Indirect? ==> Base(n, slot) + local == Base(n, w.slot) + w.idx)
      && (w.Beyond? <==> Base(n, 3) <= Base(n, slot) + local)
    decreases 3 - slot
  {
    if slot < 3 {
      if Span(n, slot + 1) <= local {
        RouteExact(n, slot + 1, local - Span(n, slot + 1));
      } else {
        BaseMonotone(n, slot + 1, 3);
      }
    }
  }

  lemma {:induction false} BaseMonotone(n: nat, a: nat, b: nat)
    requires 0 < n && a <= b
    ensures Base(n, a) <= Base(n, b)
  {
    if a < b { BaseMonotone(n, a, b - 1); }
  }

  /** Distinct logical blocks have distinct places, and those from `Base(n, 3)` on have none. */
  lemma WhereExact(n: nat, b: nat)
    requires 0 < n
    ensures Where(n, b).Indirect? ==> b == Base(n, Where(n, b).slot) + Where(n, b).idx
    ensures Where(n, b).Beyond? <==> Base(n, 3) <= b
  {
    BaseMonotone(n, 0, 3);
    if DIRECT <= b { RouteExact(n, 0, b - DIRECT); }
  }

  /** Every entry of a slot is the place of the block at that offset. */
  lemma WhereAt(n: nat, slot: nat, idx: nat)
    requires 0 < n && slot < 3 && idx < Span(n, slot + 1)
    ensures Where(n, Base(n, slot) + idx) == Indirect(slot, idx)
  {
    var b := Base(n, slot) + idx;
    BaseMonotone(n, 0, slot);
    BaseMonotone(n, slot + 1, 3);
    WhereExact(n, b);
    var w := Where(n, b);
    if w.slot < slot { BaseMonotone(n, w.slot + 1, slot); }
    if slot < w.slot { BaseMonotone(n, slot + 1, w.slot); }
  }

  method RouteBlock(n: nat, b: nat) returns (w: Place)
    requires 0 < n
    ensures w == Where(n, b)
  {
    if b < DIRECT {
      return Direct(b);
    }
    var local: nat := b - DIRECT;
    var span := n;
    OneSpan(n);
    for slot := 0 to 3
      invariant span == Span(n, slot + 1)
      invariant Where(n, b) == Route(n, slot, local)
    {
      if local < span {
        return Indirect(slot, local);
      }
      local := local - span;
      span := Mul(span, n);
    }
    return Beyond;
  }

  lemma OneSpan(n: nat)
    requires 0 < n
    ensures Span(n, 1) == n
  {
    OneTimes(n);
  }

  /** The fragment that logical block `b` points to; zero is a hole. */
  function Block(n: nat, f: File, b: nat): nat
    requires 0 < n && |f.db| == DIRECT && |f.trees| == 3
  {
    match Where(n, b)
    case Direct(i) => f.db[i]
    case Indirect(slot, idx) => Get(n, f.trees[slot], slot + 1, idx)
    case Beyond => 0
  }

  // ----- sizes -----

  function BlockBytes(l: Layout): (s: nat)
    requires ValidLayout(l)
    ensures 0 < s
  {
    4 * l.entries
  }

  /** Fragments that a file of this size keeps for logical block `b`. */
  function FileFrags(l: Layout, size: nat, b: nat): (n: nat)
    requires ValidLayout(l)
    ensures n <= l.g.frag
    ensures n == 0 <==> size <= Times(BlockBytes(l), b)
    ensures 0 < n < l.g.frag ==> size - Times(BlockBytes(l), b) <= Times(l.fs, n)
  {
    var base := Times(BlockBytes(l), b);
    if size <= base then 0
    else if b >= DIRECT || size - base >= BlockBytes(l) then l.g.frag
    else
      var q := Quot(l.fs, size - base + l.fs - 1);
      FragsBound(l, size - base);
      q
  }

  /** `ceil(bytes / fs)` for a partial block. */
  lemma FragsBound(l: Layout, bytes: nat)
    requires ValidLayout(l) && 0 < bytes < BlockBytes(l)
    ensures var q := Quot(l.fs, bytes + l.fs - 1); 0 < q <= l.g.frag && bytes <= Times(l.fs, q)
  {
    var q := Quot(l.fs, bytes + l.fs - 1);
    if l.g.frag < q { TimesMonotone(l.fs, l.g.frag, q); }
  }

  /** Blocks of a file of this size. */
  function Extent(l: Layout, size: nat): nat
    requires ValidLayout(l)
  {
    Quot(BlockBytes(l), size + BlockBytes(l) - 1)
  }

  lemma ExtentExact(l: Layout, size: nat, b: nat)
    requires ValidLayout(l)
    ensures b < Extent(l, size) <==> Times(BlockBytes(l), b) < size
  {
    var bs, e := BlockBytes(l), Extent(l, size);
    if b < e { TimesMonotone(bs, b, e); }
    if e < b { TimesMonotone(bs, e, b); }
  }

  /** Run lengths of the direct blocks. */
  function Lens(l: Layout, size: nat): (s: seq<nat>)
    requires ValidLayout(l)
    ensures |s| == DIRECT && forall i | 0 <= i < DIRECT :: s[i] == FileFrags(l, size, i)
  {
    seq(DIRECT, i requires 0 <= i < DIRECT => FileFrags(l, size, i))
  }

  function RunLen(frag: nat, lens: seq<nat>, b: nat): nat
    requires |lens| == DIRECT
  {
    if b < DIRECT then lens[b] else frag
  }

  // ----- ownership -----

  /** What each of the fifteen pointers of the inode holds. */
  function FileParts(frag: nat, f: File, lens: seq<nat>, data: bool): (ms: seq<multiset<nat>>)
    requires |f.db| == |lens| == DIRECT && |f.trees| == 3
    ensures |ms| == 15
  {
    seq(DIRECT, i requires 0 <= i < DIRECT => if data then Held(f.db[i], lens[i]) else multiset{})
    + seq(3, s requires 0 <= s < 3 => Owned(frag, f.trees[s], data))
  }

  function FileHeld(frag: nat, f: File, lens: seq<nat>, data: bool): multiset<nat>
    requires |f.db| == |lens| == DIRECT && |f.trees| == 3
  {
    Union(FileParts(frag, f, lens, data))
  }

  /** A run of the inode's file, inside one block. */
  ghost predicate RunOk(l: Layout, x: nat, n: nat)
    requires ValidLayout(l)
  {
    0 < x && 0 < n && InOneBlock(l.g, l.lens, x, n)
  }

  ghost predicate Shaped(l: Layout, f: File, lens: seq<nat>)
    requires ValidLayout(l)
  {
    && |f.db| == |lens| == DIRECT && |f.trees| == 3
    && (forall i | 0 <= i < DIRECT :: f.db[i] != 0 ==> RunOk(l, f.db[i], lens[i]))
    && (forall s | 0 <= s < 3 :: Sound(l, f.trees[s], s + 1))
  }

  // ----- storing one block pointer -----

  function MissingIn(n: nat, f: File, b: nat): nat
    requires 0 < n && |f.db| == DIRECT && |f.trees| == 3
  {
    match Where(n, b)
    case Indirect(slot, idx) => Missing(n, f.trees[slot], slot + 1, idx)
    case _ => 0
  }

  function WithBlock(n: nat, f: File, b: nat, leaf: nat, extra: seq<nat>): File
    requires 0 < n && |f.db| == DIRECT && |f.trees| == 3 && |extra| == MissingIn(n, f, b)
  {
    match Where(n, b)
    case Direct(i) => f.(db := f.db[i := leaf])
    case Indirect(slot, idx) => f.(trees := f.trees[slot := Graft(n, f.trees[slot], slot + 1, idx, leaf, extra)])
    case Beyond => f
  }

  /** Exactly one logical block points elsewhere afterwards. */
  lemma WithBlockGet(l: Layout, f: File, lens: seq<nat>, b: nat, leaf: nat, extra: seq<nat>, j: nat)
    requires ValidLayout(l) && Shaped(l, f, lens) && !Where(l.entries, b).Beyond?
    requires |extra| == MissingIn(l.entries, f, b) && forall x | x in extra :: BlockOk(l, x)
    ensures Block(l.entries, WithBlock(l.entries, f, b, leaf, extra), j) == if j == b then leaf else Block(l.entries, f, j)
  {
    var n := l.entries;
    WhereExact(n, b);
    WhereExact(n, j);
    var w, u := Where(n, b), Where(n, j);
    if w.Indirect? && u.Indirect? && w.slot == u.slot {
      GraftGet(l, f.trees[w.slot], w.slot + 1, w.idx, leaf, extra, u.idx);
    }
  }

  lemma WithBlockShaped(l: Layout, f: File, lens: seq<nat>, b: nat, leaf: nat, len: nat, extra: seq<nat>)
    requires ValidLayout(l) && Shaped(l, f, lens) && RunOk(l, leaf, len)
    requires |extra| == MissingIn(l.entries, f, b) && forall x | x in extra :: BlockOk(l, x)
    requires DIRECT <= b ==> len == l.g.frag
    ensures Shaped(l, WithBlock(l.entries, f, b, leaf, extra), if b < DIRECT then lens[b := len] else lens)
  {
    var w := Where(l.entries, b);
    if w.Indirect? {
      GraftSound(l, f.trees[w.slot], w.slot + 1, w.idx, leaf, extra);
    }
  }

  /** The file gives up the old run of the block and gains the new one and the fresh index blocks. */
  lemma WithBlockHeld(l: Layout, f: File, lens: seq<nat>, b: nat, leaf: nat, len: nat, extra: seq<nat>)
    requires ValidLayout(l) && Shaped(l, f, lens) && 0 < leaf && !Where(l.entries, b).Beyond?
    requires |extra| == MissingIn(l.entries, f, b) && forall x | x in extra :: BlockOk(l, x)
    requires DIRECT <= b ==> len == l.g.frag
    ensures FileHeld(l.g.frag, WithBlock(l.entries, f, b, leaf, extra), if b < DIRECT then lens[b := len] else lens, true)
            + Held(Block(l.entries, f, b), RunLen(l.g.frag, lens, b))
         == FileHeld(l.g.frag, f, lens, true) + (Held(leaf, len) + Blocks(l.g.frag, extra))
  {
    hide Union, Owned, Held, Graft, Sound, Span, Route, Get, FileHeld;
    var w := Where(l.entries, b);
    if w.Direct? {
      assert extra == [];
      DirectHeld(l.g.frag, f, lens, b, leaf, len);
    } else {
      TreeHeld(l, f, lens, w.slot, w.idx, leaf, extra);
    }
  }

  lemma DirectHeld(frag: nat, f: File, lens: seq<nat>, i: nat, leaf: nat, len: nat)
    requires |f.db| == |lens| == DIRECT && |f.trees| == 3 && i < DIRECT
    ensures FileHeld(frag, f.(db := f.db[i := leaf]), lens[i := len], true) + Held(f.db[i], lens[i])
         == FileHeld(frag, f, lens, true) + (Held(leaf, len) + Blocks(frag, []))
  {
    hide Owned, Held, Union;
    var ms := FileParts(frag, f, lens, true);
    assert FileParts(frag, f.(db := f.db[i := leaf]), lens[i := len], true) == ms[i := Held(leaf, len)];
    UnionUpdate(ms, i, Held(leaf, len));
    assert Held(leaf, len) + multiset{} == Held(leaf, len);
  }

  lemma TreeHeld(l: Layout, f: File, lens: seq<nat>, slot: nat, idx: nat, leaf: nat, extra: seq<nat>)
    requires ValidLayout(l) && Shaped(l, f, lens) && slot < 3 && idx < Span(l.entries, slot + 1) && 0 < leaf
    requires |extra| == Missing(l.entries, f.trees[slot], slot + 1, idx) && forall x | x in extra :: BlockOk(l, x)
    ensures var t := Graft(l.entries, f.trees[slot], slot + 1, idx, leaf, extra);
      FileHeld(l.g.frag, f.(trees := f.trees[slot := t]), lens, true) + Held(Get(l.entries, f.trees[slot], slot + 1, idx), l.g.frag)
      == FileHeld(l.g.frag, f, lens, true) + (Held(leaf, l.g.frag) + Blocks(l.g.frag, extra))
  {
    hide Owned, Held, Union, Graft, Missing, Sound, Blocks;
    var t := Graft(l.entries, f.trees[slot], slot + 1, idx, leaf, extra);
    var ms := FileParts(l.g.frag, f, lens, true);
    GraftOwned(l, f.trees[slot], slot + 1, idx, leaf, extra, true);
    assert FileParts(l.g.frag, f.(trees := f.trees[slot := t]), lens, true) == ms[12 + slot := Owned(l.g.frag, t, true)];
    UnionUpdate(ms, 12 + slot, Owned(l.g.frag, t, true));
    Exchange(Union(ms[12 + slot := Owned(l.g.frag, t, true)]), ms[12 + slot], Union(ms), Owned(l.g.frag, t, true),
             Held(Get(l.entries, f.trees[slot], slot + 1, idx), l.g.frag), Held(leaf, l.g.frag) + Blocks(l.g.frag, extra));
  }

  // ----- data blocks and index blocks do not overlap -----

  lemma GetHeld(l: Layout, t: Tree, level: nat, j: nat, y: nat)
    requires ValidLayout(l) && Sound(l, t, level) && j < Span(l.entries, level)
    ensures Owned(l.g.frag, t, false)[y] + Held(Get(l.entries, t, level, j), l.g.frag)[y] <= Owned(l.g.frag, t, true)[y]
    decreases level
  {
    var f, n := l.g.frag, l.entries;
    if t.Index? {
      var e := Slot(n, level, j);
      GetHeld(l, t.kids[e], level - 1, Rest(n, level, j), y);
      forall i | 0 <= i < n ensures Owned(f, t.kids[i], false)[y] <= Owned(f, t.kids[i], true)[y] {
        IndexLess(f, t.kids[i], y);
      }
      KidsMore(f, t, e, y, Held(Get(n, t, level, j), f)[y]);
    }
  }

  /** One child whose data counts for `more` makes the whole tree's data count for `more`. */
  lemma KidsMore(frag: nat, t: Tree, e: nat, y: nat, more: nat)
    requires t.Index? && e < |t.kids| && Owned(frag, t.kids[e], false)[y] + more <= Owned(frag, t.kids[e], true)[y]
    requires forall i | 0 <= i < |t.kids| :: Owned(frag, t.kids[i], false)[y] <= Owned(frag, t.kids[i], true)[y]
    ensures Owned(frag, t, false)[y] + more <= Owned(frag, t, true)[y]
  {
    OwnedIndex(frag, t, false);
    OwnedIndex(frag, t, true);
    UnionMore(Parts(frag, t.kids, false), Parts(frag, t.kids, true), e, more, y);
  }

  lemma {:induction false} UnionMore(a: seq<multiset<nat>>, b: seq<multiset<nat>>, e: nat, more: nat, y: nat)
    requires |a| == |b| && forall i | 0 <= i < |a| :: a[i][y] <= b[i][y]
    requires more == 0 || (e < |a| && a[e][y] + more <= b[e][y])
    ensures Union(a)[y] + more <= Union(b)[y]
  {
    if |a| > 0 {
      UnionMore(a[..|a| - 1], b[..|b| - 1], e, if e == |a| - 1 then 0 else more, y);
    }
  }

  /** Two different logical blocks of one tree hold different fragments, none of them an index block. */
  lemma GetPair(l: Layout, t: Tree, level: nat, i: nat, j: nat, y: nat)
    requires ValidLayout(l) && Sound(l, t, level) && i < Span(l.entries, level) && j < Span(l.entries, level) && i != j
    ensures Owned(l.g.frag, t, false)[y] + Held(Get(l.entries, t, level, i), l.g.frag)[y] + Held(Get(l.entries, t, level, j), l.g.frag)[y]
         <= Owned(l.g.frag, t, true)[y]
    decreases level
  {
    hide Sound, Owned, Held, Get, Span;
    var f, n := l.g.frag, l.entries;
    if t.Index? {
      TreeKids(l, t, level);
      GetKid(l, t, level, i);
      GetKid(l, t, level, j);
      forall k | 0 <= k < n ensures Owned(f, t.kids[k], false)[y] <= Owned(f, t.kids[k], true)[y] {
        IndexLess(f, t.kids[k], y);
      }
      var e, g := Slot(n, level, i), Slot(n, level, j);
      var hi, hj := Held(Get(n, t, level, i), f)[y], Held(Get(n, t, level, j), f)[y];
      if e == g {
        GetPair(l, t.kids[e], level - 1, Rest(n, level, i), Rest(n, level, j), y);
        KidsMore(f, t, e, y, hi + hj);
      } else {
        GetHeld(l, t.kids[e], level - 1, Rest(n, level, i), y);
        GetHeld(l, t.kids[g], level - 1, Rest(n, level, j), y);
        KidsMoreTwo(f, t, e, g, y, hi, hj);
      }
    } else {
      NoKids(l, t, level, i, j);
    }
  }

  lemma NoKids(l: Layout, t: Tree, level: nat, i: nat, j: nat)
    requires ValidLayout(l) && Sound(l, t, level) && !t.Index? && i < Span(l.entries, level) && j < Span(l.entries, level) && i != j
    ensures t.Hole? && Owned(l.g.frag, t, false) == multiset{} && Held(Get(l.entries, t, level, i), l.g.frag) == multiset{}
    ensures Held(Get(l.entries, t, level, j), l.g.frag) == multiset{}
  {
  }

  lemma GetKid(l: Layout, t: Tree, level: nat, i: nat)
    requires ValidLayout(l) && Sound(l, t, level) && t.Index? && i < Span(l.entries, level)
    ensures 0 < level && Get(l.entries, t, level, i) == Get(l.entries, t.kids[Slot(l.entries, level, i)], level - 1, Rest(l.entries, level, i))
  {
  }

  lemma TreeKids(l: Layout, t: Tree, level: nat)
    requires ValidLayout(l) && Sound(l, t, level) && t.Index?
    ensures 0 < level && |t.kids| == l.entries && forall i | 0 <= i < |t.kids| :: Sound(l, t.kids[i], level - 1)
  {
  }

  lemma KidsMoreTwo(frag: nat, t: Tree, e: nat, g: nat, y: nat, a: nat, b: nat)
    requires t.Index? && e < |t.kids| && g < |t.kids| && e != g
    requires Owned(frag, t.kids[e], false)[y] + a <= Owned(frag, t.kids[e], true)[y]
    requires Owned(frag, t.kids[g], false)[y] + b <= Owned(frag, t.kids[g], true)[y]
    requires forall i | 0 <= i < |t.kids| :: Owned(frag, t.kids[i], false)[y] <= Owned(frag, t.kids[i], true)[y]
    ensures Owned(frag, t, false)[y] + a + b <= Owned(frag, t, true)[y]
  {
    OwnedIndex(frag, t, false);
    OwnedIndex(frag, t, true);
    UnionMoreTwo(Parts(frag, t.kids, false), Parts(frag, t.kids, true), e, a, g, b, y);
  }

  lemma {:induction false} UnionMoreTwo(a: seq<multiset<nat>>, b: seq<multiset<nat>>, e: nat, m: nat, g: nat, k: nat, y: nat)
    requires |a| == |b| && (forall i | 0 <= i < |a| :: a[i][y] <= b[i][y]) && e != g
    requires m == 0 || (e < |a| && a[e][y] + m <= b[e][y])
    requires k == 0 || (g < |a| && a[g][y] + k <= b[g][y])
    ensures Union(a)[y] + m + k <= Union(b)[y]
  {
    if |a| > 0 {
      var z := |a| - 1;
      UnionMoreTwo(a[..z], b[..z], e, if e == z then 0 else m, g, if g == z then 0 else k, y);
    }
  }

  /** A fragment is held by at most one logical block of a file, and not also by an index block. */
  lemma BlocksDistinct(l: Layout, f: File, lens: seq<nat>, i: nat, j: nat, y: nat)
    requires ValidLayout(l) && Shaped(l, f, lens) && i != j
    ensures FileHeld(l.g.frag, f, lens, false)[y]
            + Held(Block(l.entries, f, i), RunLen(l.g.frag, lens, i))[y]
            + Held(Block(l.entries, f, j), RunLen(l.g.frag, lens, j))[y]
         <= FileHeld(l.g.frag, f, lens, true)[y]
  {
    hide Union, Owned, Sound, Get, Route, Span, Held;
    var frag, n := l.g.frag, l.entries;
    var a, b := FileParts(frag, f, lens, false), FileParts(frag, f, lens, true);
    var u, w := Where(n, i), Where(n, j);
    WhereExact(n, i);
    WhereExact(n, j);
    var hi, hj := Held(Block(n, f, i), RunLen(frag, lens, i))[y], Held(Block(n, f, j), RunLen(frag, lens, j))[y];
    forall k | 0 <= k < 15 ensures a[k][y] <= b[k][y] {
      if 12 <= k { IndexLess(frag, f.trees[k - 12], y); }
    }
    if u.Indirect? && w.Indirect? && u.slot == w.slot {
      GetPair(l, f.trees[u.slot], u.slot + 1, u.idx, w.idx, y);
      UnionMore(a, b, 12 + u.slot, hi + hj, y);
    } else {
      var e := PartOf(l, f, lens, i, y);
      var g := PartOf(l, f, lens, j, y);
      UnionMoreTwo(a, b, e, hi, g, hj, y);
    }
  }

  /** The pointer of the inode under which a logical block lies. */
  lemma PartOf(l: Layout, f: File, lens: seq<nat>, i: nat, y: nat) returns (e: nat)
    requires ValidLayout(l) && Shaped(l, f, lens)
    ensures match Where(l.entries, i) case Direct(k) => e == k case Indirect(slot, idx) => e == 12 + slot case Beyond => e == 15 + i
    ensures var h := Held(Block(l.entries, f, i), RunLen(l.g.frag, lens, i))[y];
      h == 0 || (e < 15 && FileParts(l.g.frag, f, lens, false)[e][y] + h <= FileParts(l.g.frag, f, lens, true)[e][y])
  {
    hide Union, Sound, Get, Route, Owned;
    var w := Where(l.entries, i);
    match w
    case Direct(k) => e := k;
    case Indirect(slot, idx) =>
      e := 12 + slot;
      GetHeld(l, f.trees[slot], slot + 1, idx, y);
    case Beyond => e := 15 + i;
  }
}
