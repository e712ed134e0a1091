/** Freeing a file: every data run, then the index blocks of the three trees. */
module FileFree {
  import opened Scale
  import opened Ledger
  import opened Options
  import opened Volume
  import opened BlockTree
  import opened IndirectBlocks
  import opened Files
  import opened Pruning
  import opened Resolve
  import opened FileMutate
  import opened FileResize
  import opened FileIo

  // ----- the data blocks of a tree and of a file -----

  /** What the logical blocks `[a, b)` of a tree hold. */
  function Leaves(n: nat, frag: nat, t: Tree, level: nat, a: nat, b: nat): multiset<nat>
    requires 0 < n && a <= b <= Span(n, level)
    decreases b
  {
    if a == b then multiset{} else Leaves(n, frag, t, level, a, b - 1) + Held(Get(n, t, level, b - 1), frag)
  }

  lemma {:induction false} LeavesSplit(n: nat, frag: nat, t: Tree, level: nat, a: nat, b: nat, c: nat)
    requires 0 < n && a <= b <= c <= Span(n, level)
    ensures Leaves(n, frag, t, level, a, c) == Leaves(n, frag, t, level, a, b) + Leaves(n, frag, t, level, b, c)
    decreases c
  {
    hide Held, Get, Span;
    if b < c {
      LeavesSplit(n, frag, t, level, a, b, c - 1);
    }
  }

  /** The entry of a block below child `e`. */
  lemma {:induction false} SlotAt(n: nat, level: nat, e: nat, r: nat)
    requires 0 < n && 0 < level && e < n && r < Span(n, level - 1)
    ensures Times(Span(n, level - 1), e) + r < Span(n, level)
    ensures Slot(n, level, Times(Span(n, level - 1), e) + r) == e && Rest(n, level, Times(Span(n, level - 1), e) + r) == r
  {
    var span := Span(n, level - 1);
    TimesMonotone(span, e, n);
    QuotUnique(span, e, r);
  }

  lemma {:induction false} RowEnd(n: nat, level: nat, e: nat)
    requires 0 < n && 0 < level && e < n
    ensures Times(Span(n, level - 1), e) + Span(n, level - 1) == Times(Span(n, level - 1), e + 1) <= Span(n, level)
  {
    if e + 1 < n {
      TimesMonotone(Span(n, level - 1), e + 1, n);
    }
  }

  lemma {:induction false} GetBelow(n: nat, t: Tree, level: nat, e: nat, r: nat)
    requires 0 < n && 0 < level && t.Index? && |t.kids| == n && e < n && r < Span(n, level - 1)
    ensures Times(Span(n, level - 1), e) + r < Span(n, level)
    ensures Get(n, t, level, Times(Span(n, level - 1), e) + r) == Get(n, t.kids[e], level - 1, r)
  {
    SlotAt(n, level, e, r);
    hide Span, Slot, Rest, Times;
  }

  lemma {:induction false} LeavesSnoc(n: nat, frag: nat, t: Tree, level: nat, a: nat, b: nat)
    requires 0 < n && a <= b < Span(n, level)
    ensures Leaves(n, frag, t, level, a, b + 1) == Leaves(n, frag, t, level, a, b) + Held(Get(n, t, level, b), frag)
  {
  }

  lemma {:induction false} LeavesNone(n: nat, frag: nat, t: Tree, level: nat, a: nat)
    requires 0 < n && a <= Span(n, level)
    ensures Leaves(n, frag, t, level, a, a) == multiset{}
  {
  }

  /** The blocks below child `e` are the child's blocks. */
  lemma {:induction false} LeavesBelow(n: nat, frag: nat, t: Tree, level: nat, e: nat, r: nat)
    requires 0 < n && 0 < level && t.Index? && |t.kids| == n && e < n && r <= Span(n, level - 1)
    ensures Times(Span(n, level - 1), e) + r <= Span(n, level)
    ensures Leaves(n, frag, t, level, Times(Span(n, level - 1), e), Times(Span(n, level - 1), e) + r)
      == Leaves(n, frag, t.kids[e], level - 1, 0, r)
    decreases r
  {
    hide Held, Span, Times, Get, Leaves;
    RowEnd(n, level, e);
    var a := Times(Span(n, level - 1), e);
    if r > 0 {
      LeavesBelow(n, frag, t, level, e, r - 1);
      GetBelow(n, t, level, e, r - 1);
      LeavesSnoc(n, frag, t, level, a, a + (r - 1));
      LeavesSnoc(n, frag, t.kids[e], level - 1, 0, r - 1);
    } else {
      LeavesNone(n, frag, t, level, a);
      LeavesNone(n, frag, t.kids[e], level - 1, 0);
    }
  }

  function KidLeaves(n: nat, frag: nat, kids: seq<Tree>, level: nat): seq<multiset<nat>>
    requires 0 < n
  {
    seq(|kids|, i requires 0 <= i < |kids| => Leaves(n, frag, kids[i], level, 0, Span(n, level)))
  }

  lemma {:induction false} LeavesRow(n: nat, frag: nat, t: Tree, level: nat, e: nat)
    requires 0 < n && 0 < level && t.Index? && |t.kids| == n && e <= n
    ensures Times(Span(n, level - 1), e) <= Span(n, level)
    ensures Leaves(n, frag, t, level, 0, Times(Span(n, level - 1), e)) == Union(KidLeaves(n, frag, t.kids, level - 1)[..e])
    decreases e
  {
    hide Leaves, Span, Get, Held, Times, KidLeaves, Union;
    assert Times(Span(n, level - 1), 0) == 0 by { TimesZero(Span(n, level - 1)); }
    var ms := KidLeaves(n, frag, t.kids, level - 1);
    KidLeavesAt(n, frag, t.kids, level - 1);
    if e > 0 {
      RowEnd(n, level, e - 1);
      LeavesRow(n, frag, t, level, e - 1);
      LeavesBelow(n, frag, t, level, e - 1, Span(n, level - 1));
      LeavesSplit(n, frag, t, level, 0, Times(Span(n, level - 1), e - 1), Times(Span(n, level - 1), e));
      UnionSnoc(ms, e - 1);
    } else {
      LeavesNone(n, frag, t, level, 0);
      UnionNone(ms);
    }
  }

  lemma {:induction false} TimesZero(k: nat)
    ensures Times(k, 0) == 0
  {
  }

  lemma {:induction false} KidLeavesAt(n: nat, frag: nat, kids: seq<Tree>, level: nat)
    requires 0 < n
    ensures |KidLeaves(n, frag, kids, level)| == |kids|
    ensures forall i | 0 <= i < |kids| :: KidLeaves(n, frag, kids, level)[i] == Leaves(n, frag, kids[i], level, 0, Span(n, level))
  {
  }

  lemma {:induction false} UnionSnoc(ms: seq<multiset<nat>>, e: nat)
    requires e < |ms|
    ensures Union(ms[..e + 1]) == Union(ms[..e]) + ms[e]
  {
    assert ms[..e + 1][..e] == ms[..e] && ms[..e + 1][e] == ms[e];
  }

  lemma {:induction false} UnionNone(ms: seq<multiset<nat>>)
    ensures Union(ms[..0]) == multiset{}
  {
  }

  /** Part by part: what is held is the index blocks and the data. */
  lemma {:induction false} UnionPlus(ms: seq<multiset<nat>>, ks: seq<multiset<nat>>, ds: seq<multiset<nat>>)
    requires |ms| == |ks| == |ds| && forall i | 0 <= i < |ms| :: ms[i] == ks[i] + ds[i]
    ensures Union(ms) == Union(ks) + Union(ds)
  {
    var n := |ms| - 1;
    if n >= 0 {
      UnionPlus(ms[..n], ks[..n], ds[..n]);
    }
  }

  /** A tree holds its index blocks and its data blocks. */
  lemma {:induction false} OwnedSplit(l: Layout, t: Tree, level: nat)
    requires ValidLayout(l) && Sound(l, t, level)
    ensures Owned(l.g.frag, t, true) == Owned(l.g.frag, t, false) + Leaves(l.entries, l.g.frag, t, level, 0, Span(l.entries, level))
    decreases level
  {
    var n, frag := l.entries, l.g.frag;
    match t
    case Hole =>
      LeavesHole(n, frag, level, Span(n, level));
    case Leaf(x) =>
      assert Leaves(n, frag, t, 0, 0, 0) == multiset{};
      assert Leaves(n, frag, t, 0, 0, 1) == multiset{} + Held(x, frag);
    case Index(x, kids) =>
      KidsSplit(l, t, level);
      IndexSplit(l, t, level);
  }

  lemma {:induction false} IndexSplit(l: Layout, t: Tree, level: nat)
    requires ValidLayout(l) && t.Index? && 0 < level && |t.kids| == l.entries
    requires forall i | 0 <= i < |t.kids| ::
      Parts(l.g.frag, t.kids, true)[i] == Parts(l.g.frag, t.kids, false)[i] + KidLeaves(l.entries, l.g.frag, t.kids, level - 1)[i]
    ensures Owned(l.g.frag, t, true) == Owned(l.g.frag, t, false) + Leaves(l.entries, l.g.frag, t, level, 0, Span(l.entries, level))
  {
    hide Leaves, Owned, Union, KidLeaves, Parts, Run, Span;
    var n, frag, kids := l.entries, l.g.frag, t.kids;
    OwnedIndex(frag, t, true);
    OwnedIndex(frag, t, false);
    LeavesRow(n, frag, t, level, n);
    var ms := KidLeaves(n, frag, kids, level - 1);
    KidLeavesAt(n, frag, kids, level - 1);
    PartsAt(frag, kids);
    assert ms[..n] == ms;
    UnionPlus(Parts(frag, kids, true), Parts(frag, kids, false), ms);
    Spans(n, level);
  }

  lemma {:induction false} PartsAt(frag: nat, kids: seq<Tree>)
    ensures |Parts(frag, kids, true)| == |Parts(frag, kids, false)| == |kids|
    ensures forall i | 0 <= i < |kids| :: Parts(frag, kids, true)[i] == Owned(frag, kids[i], true)
    ensures forall i | 0 <= i < |kids| :: Parts(frag, kids, false)[i] == Owned(frag, kids[i], false)
  {
  }

  lemma {:induction false} Spans(n: nat, level: nat)
    requires 0 < n && 0 < level
    ensures Span(n, level) == Times(Span(n, level - 1), n)
  {
  }

  lemma {:induction false} KidsSplit(l: Layout, t: Tree, level: nat)
    requires ValidLayout(l) && Sound(l, t, level) && t.Index?
    ensures 0 < level && |t.kids| == l.entries
    ensures forall i | 0 <= i < |t.kids| ::
      Parts(l.g.frag, t.kids, true)[i] == Parts(l.g.frag, t.kids, false)[i] + KidLeaves(l.entries, l.g.frag, t.kids, level - 1)[i]
    decreases level, 0
  {
    hide Leaves, Owned, Span, KidLeaves, Parts;
    var n, frag, kids := l.entries, l.g.frag, t.kids;
    KidLeavesAt(n, frag, kids, level - 1);
    PartsAt(frag, kids);
    forall i | 0 <= i < |t.kids|
      ensures Parts(frag, kids, true)[i] == Parts(frag, kids, false)[i] + KidLeaves(n, frag, kids, level - 1)[i]
    {
      OwnedSplit(l, t.kids[i], level - 1);
    }
  }

  lemma {:induction false} LeavesHole(n: nat, frag: nat, level: nat, b: nat)
    requires 0 < n && b <= Span(n, level)
    ensures Leaves(n, frag, Hole, level, 0, b) == multiset{}
  {
    if b > 0 {
      LeavesHole(n, frag, level, b - 1);
    }
  }

  /** What the logical blocks `[a, b)` of a file hold. */
  function Data(l: Layout, f: File, lens: seq<nat>, a: nat, b: nat): multiset<nat>
    requires ValidLayout(l) && |f.db| == |lens| == DIRECT && |f.trees| == 3 && a <= b
    decreases b
  {
    if a == b then multiset{}
    else Data(l, f, lens, a, b - 1) + Held(Block(l.entries, f, b - 1), RunLen(l.g.frag, lens, b - 1))
  }

  lemma {:induction false} DataSnoc(l: Layout, f: File, lens: seq<nat>, a: nat, b: nat)
    requires ValidLayout(l) && |f.db| == |lens| == DIRECT && |f.trees| == 3 && a <= b
    ensures Data(l, f, lens, a, b + 1) == Data(l, f, lens, a, b) + Held(Block(l.entries, f, b), RunLen(l.g.frag, lens, b))
    ensures Data(l, f, lens, a, a) == multiset{}
  {
  }

  lemma {:induction false} DataSplit(l: Layout, f: File, lens: seq<nat>, a: nat, b: nat, c: nat)
    requires ValidLayout(l) && |f.db| == |lens| == DIRECT && |f.trees| == 3 && a <= b <= c
    ensures Data(l, f, lens, a, c) == Data(l, f, lens, a, b) + Data(l, f, lens, b, c)
    decreases c
  {
    hide Held, Block, RunLen;
    if b < c {
      DataSplit(l, f, lens, a, b, c - 1);
    }
  }

  /** The blocks of an indirect slot are its tree's blocks. */
  lemma {:induction false} DataSlot(l: Layout, f: File, lens: seq<nat>, slot: nat, k: nat)
    requires ValidLayout(l) && |f.db| == |lens| == DIRECT && |f.trees| == 3 && slot < 3 && k <= Span(l.entries, slot + 1)
    ensures Data(l, f, lens, Base(l.entries, slot), Base(l.entries, slot) + k)
      == Leaves(l.entries, l.g.frag, f.trees[slot], slot + 1, 0, k)
    decreases k
  {
    hide Held, Get, Span, Base, Data, Leaves, Route;
    var b := Base(l.entries, slot);
    DataSnoc(l, f, lens, b, b);
    LeavesNone(l.entries, l.g.frag, f.trees[slot], slot + 1, 0);
    if k > 0 {
      DataSlot(l, f, lens, slot, k - 1);
      DataSnoc(l, f, lens, b, b + (k - 1));
      LeavesSnoc(l.entries, l.g.frag, f.trees[slot], slot + 1, 0, k - 1);
      WhereAt(l.entries, slot, k - 1);
      BaseDirect(l.entries, slot);
    }
  }

  lemma {:induction false} BaseDirect(n: nat, slot: nat)
    requires 0 < n
    ensures DIRECT <= Base(n, slot)
  {
    BaseMonotone(n, 0, slot);
  }

  /** The data behind each of the fifteen pointers. */
  function DataParts(l: Layout, f: File, lens: seq<nat>): (ds: seq<multiset<nat>>)
    requires ValidLayout(l) && |f.db| == |lens| == DIRECT && |f.trees| == 3
    ensures |ds| == 15
  {
    seq(DIRECT, i requires 0 <= i < DIRECT => Held(f.db[i], lens[i]))
    + seq(3, s requires 0 <= s < 3 => Leaves(l.entries, l.g.frag, f.trees[s], s + 1, 0, Span(l.entries, s + 1)))
  }

  lemma {:induction false} DataDirect(l: Layout, f: File, lens: seq<nat>, i: nat)
    requires ValidLayout(l) && |f.db| == |lens| == DIRECT && |f.trees| == 3 && i <= DIRECT
    ensures Union(DataParts(l, f, lens)[..i]) == Data(l, f, lens, 0, i)
  {
    hide Held, Leaves, Union, Data;
    DataSnoc(l, f, lens, 0, 0);
    UnionNone(DataParts(l, f, lens));
    if i > 0 {
      DataDirect(l, f, lens, i - 1);
      UnionSnoc(DataParts(l, f, lens), i - 1);
      DataSnoc(l, f, lens, 0, i - 1);
    }
  }

  lemma {:induction false} DataSlots(l: Layout, f: File, lens: seq<nat>, slot: nat)
    requires ValidLayout(l) && |f.db| == |lens| == DIRECT && |f.trees| == 3 && slot <= 3
    ensures Union(DataParts(l, f, lens)[..DIRECT + slot]) == Data(l, f, lens, 0, Base(l.entries, slot))
    decreases slot
  {
    hide Held, Leaves, Union, Data, Span;
    if slot == 0 {
      DataDirect(l, f, lens, DIRECT);
    } else {
      DataSlots(l, f, lens, slot - 1);
      UnionSnoc(DataParts(l, f, lens), DIRECT + slot - 1);
      DataSlot(l, f, lens, slot - 1, Span(l.entries, slot));
      DataSplit(l, f, lens, 0, Base(l.entries, slot - 1), Base(l.entries, slot));
    }
  }

  /** A file holds its index blocks and its data blocks. */
  lemma {:induction false} FileSplit(l: Layout, f: File, lens: seq<nat>)
    requires ValidLayout(l) && Shaped(l, f, lens)
    ensures FileHeld(l.g.frag, f, lens, true) == FileHeld(l.g.frag, f, lens, false) + Data(l, f, lens, 0, Base(l.entries, 3))
  {
    hide Held, Leaves, Union, Data, Span, Owned, Sound, Base;
    var ms, ks, ds := FileParts(l.g.frag, f, lens, true), FileParts(l.g.frag, f, lens, false), DataParts(l, f, lens);
    forall i | 0 <= i < 15
      ensures ms[i] == ks[i] + ds[i]
    {
      if i >= DIRECT {
        OwnedSplit(l, f.trees[i - DIRECT], i - DIRECT + 1);
      }
    }
    UnionPlus(ms, ks, ds);
    DataSlots(l, f, lens, 3);
    assert ds[..15] == ds;
  }

  /** Nothing is held past the end of the file. */
  lemma {:induction false} DataPast(l: Layout, f: File, size: nat, a: nat, b: nat)
    requires ValidLayout(l) && |f.db| == DIRECT && |f.trees| == 3 && NothingPast(l, f, size) && Extent(l, size) <= a <= b
    ensures Data(l, f, Lens(l, size), a, b) == multiset{}
    decreases b
  {
    if a < b {
      DataPast(l, f, size, a, b - 1);
      assert Block(l.entries, f, b - 1) == 0;
    }
  }

  /** The blocks inside the file and the index blocks are all it holds. */
  lemma {:induction false} AtRestSplit(l: Layout, spf: nat, m: Image, f: File, size: nat, blocks: nat)
    requires ValidLayout(l) && FileOk(l, spf, m, f, size, blocks)
    ensures |f.db| == DIRECT && |f.trees| == 3
    ensures FileHeld(l.g.frag, f, Lens(l, size), true)
      == FileHeld(l.g.frag, f, Lens(l, size), false) + Data(l, f, Lens(l, size), 0, Extent(l, size))
  {
    hide FileHeld, Data, NothingPast, Sound, Extent, Base, Lens, Exclusive, Conserved;
    FileSplit(l, f, Lens(l, size));
    DataSplit(l, f, Lens(l, size), 0, Extent(l, size), Base(l.entries, 3));
    DataPast(l, f, size, Extent(l, size), Base(l.entries, 3));
  }

  // ----- freeing -----

  lemma {:induction false} ConservedTwice(a: iset<nat>, own: multiset<nat>, b: iset<nat>, own1: multiset<nat>, c: iset<nat>,
      own2: multiset<nat>)
    requires Conserved(a, own, b, own1) && Conserved(b, own1, c, own2)
    ensures Conserved(a, own, c, own2)
  {
    forall y: nat
      ensures Holders(c, own2, y) == Holders(a, own, y)
    {
      assert Holders(c, own2, y) == Holders(b, own1, y);
    }
  }

  lemma {:induction false} ConservedSelf(a: iset<nat>, own: multiset<nat>)
    ensures Conserved(a, own, a, own)
  {
  }

  lemma {:induction false} UnionHead(ms: seq<multiset<nat>>, i: nat)
    requires i < |ms|
    ensures Union(ms[i..]) == ms[i] + Union(ms[i + 1..])
    decreases |ms|
  {
    hide Union;
    var n := |ms| - 1;
    if i < n {
      UnionHead(ms[..n], i);
      UnionSnoc(ms[i..], n - i);
      UnionSnoc(ms[i + 1..], n - i - 1);
      assert ms[i..][..n - i] == ms[..n][i..] && ms[i + 1..][..n - i - 1] == ms[..n][i + 1..];
      assert ms[i..][..n - i + 1] == ms[i..] && ms[i + 1..][..n - i] == ms[i + 1..];
    } else {
      UnionSnoc(ms[i..], 0);
      UnionNone(ms[i..]);
      UnionNone(ms[i + 1..]);
      assert ms[i..][..1] == ms[i..] && ms[i + 1..][..0] == ms[i + 1..];
    }
  }

  /** The index blocks of a tree, from child `i` on. */
  function IndexFrom(frag: nat, t: Tree, i: nat): multiset<nat>
    requires t.Index? && i <= |t.kids|
  {
    Union(Parts(frag, t.kids, false)[i..])
  }

  lemma {:induction false} IndexNext(frag: nat, t: Tree, i: nat, rest: multiset<nat>)
    requires t.Index? && i < |t.kids|
    ensures rest + IndexFrom(frag, t, i) == (rest + IndexFrom(frag, t, i + 1)) + Owned(frag, t.kids[i], false)
  {
    UnionHead(Parts(frag, t.kids, false), i);
  }

  lemma {:induction false} IndexWhole(frag: nat, t: Tree, rest: multiset<nat>)
    requires t.Index?
    ensures rest + Owned(frag, t, false) == (rest + Run(t.x, frag)) + IndexFrom(frag, t, 0)
    ensures IndexFrom(frag, t, |t.kids|) == multiset{}
  {
    OwnedIndex(frag, t, false);
    assert Parts(frag, t.kids, false)[0..] == Parts(frag, t.kids, false);
  }

  /** The lowest index block has no index block below it. */
  lemma {:induction false} LowestIndex(l: Layout, t: Tree)
    requires ValidLayout(l) && Sound(l, t, 1) && t.Index?
    ensures IndexFrom(l.g.frag, t, 0) == multiset{}
  {
    var ms := Parts(l.g.frag, t.kids, false);
    forall i | 0 <= i < |ms|
      ensures ms[i] == multiset{}
    {
      assert Sound(l, t.kids[i], 0);
    }
    UnionEmpty(ms);
    assert ms[0..] == ms;
  }

  /** The child trees are those of the pointers in the block. */
  lemma {:induction false} LoadedKids(l: Layout, d: seq<Byte>, x: nat, level: nat)
    requires ValidLayout(l) && OnDisk(l, d) && 0 < level && Sound(l, Load(l, d, x, level), level) && x != 0
    ensures var t := Load(l, d, x, level);
      && t.Index? && t.x == x && |t.kids| == l.entries && BlockOk(l, x) && x + l.g.frag <= l.fragCount
      && forall i | 0 <= i < l.entries ::
        Load(l, d, Words(l, d, x)[i], level - 1) == t.kids[i] && Sound(l, t.kids[i], level - 1)
  {
    InsideSlice(l, x, l.g.frag);
  }

  lemma {:induction false} LoadedHole(l: Layout, d: seq<Byte>, level: nat)
    requires ValidLayout(l) && OnDisk(l, d)
    ensures Load(l, d, 0, level) == Hole && Owned(l.g.frag, Hole, false) == multiset{}
  {
  }

  /** `nextufs__free_indirect_metadata_tree`: exactly the index blocks become free. */
  method FreeIndexTree(v: Volume, x: nat, level: nat, ghost t: Tree, ghost rest: multiset<nat>)
    requires v.Valid() && 0 < level && t == Load(v.Lay(), v.data, x, level) && Sound(v.Lay(), t, level)
    requires Exclusive(v.Free(), rest + Owned(v.g.frag, t, false))
    modifies v`cgs, v`csum, v`total
    ensures v.Valid() && Conserved(old(v.Free()), rest + Owned(v.g.frag, t, false), v.Free(), rest)
    decreases level
  {
    hide CountsValid, IsFree, Exclusive, Conserved, Run, Owned, Load, Sound, IndexFrom, BlockOk;
    ghost var l, free := v.Lay(), v.Free();
    if x == 0 {
      LoadedHole(l, v.data, level);
      assert rest + multiset{} == rest;
      ConservedSelf(free, rest);
      return;
    }
    LoadedKids(l, v.data, x, level);
    ghost var root, all := rest + Run(x, v.g.frag), rest + Owned(v.g.frag, t, false);
    IndexWhole(v.g.frag, t, rest);
    ConservedSelf(free, all);
    assert root + multiset{} == root;
    if level > 1 {
      for i := 0 to v.entries
        invariant v.Valid() && Conserved(free, all, v.Free(), root + IndexFrom(v.g.frag, t, i))
      {
        var child := Words(v.Lay(), v.data, x)[i];
        StillExclusive(free, all, v.Free(), root + IndexFrom(v.g.frag, t, i));
        IndexNext(v.g.frag, t, i, root);
        ghost var before := v.Free();
        FreeIndexTree(v, child, level - 1, t.kids[i], root + IndexFrom(v.g.frag, t, i + 1));
        ConservedTwice(free, all, before, root + IndexFrom(v.g.frag, t, i), v.Free(), root + IndexFrom(v.g.frag, t, i + 1));
      }
    } else {
      LowestIndex(l, t);
    }
    assert Conserved(free, all, v.Free(), root);
    StillExclusive(free, all, v.Free(), root);
    ghost var before := v.Free();
    RunOfBlock(l, x);
    ReleaseRun(v, x, v.g.frag, rest);
    ConservedTwice(free, all, before, root, v.Free(), rest);
  }

  lemma {:induction false} RunOfBlock(l: Layout, x: nat)
    requires ValidLayout(l) && BlockOk(l, x)
    ensures 0 < x && 0 < l.g.frag && InOneBlock(l.g, l.lens, x, l.g.frag)
  {
  }

  /** What the file still holds when the data of the first `b` blocks is free. */
  ghost function StillHeld(l: Layout, f: File, size: nat, b: nat): multiset<nat>
    requires ValidLayout(l) && |f.db| == DIRECT && |f.trees| == 3 && b <= Extent(l, size)
  {
    FileHeld(l.g.frag, f, Lens(l, size), false) + Data(l, f, Lens(l, size), b, Extent(l, size))
  }

  lemma {:induction false} RestNext(l: Layout, f: File, size: nat, b: nat)
    requires ValidLayout(l) && |f.db| == DIRECT && |f.trees| == 3 && b < Extent(l, size)
    ensures StillHeld(l, f, size, b)
      == StillHeld(l, f, size, b + 1) + Held(Block(l.entries, f, b), RunLen(l.g.frag, Lens(l, size), b))
    ensures StillHeld(l, f, size, Extent(l, size)) == FileHeld(l.g.frag, f, Lens(l, size), false)
  {
    hide FileHeld, Held, Block, Extent, Lens, Data, RunLen;
    DataSplit(l, f, Lens(l, size), b, b + 1, Extent(l, size));
    DataSnoc(l, f, Lens(l, size), b, b);
    DataSnoc(l, f, Lens(l, size), Extent(l, size), Extent(l, size));
  }

  /** The fragments of a block as the loop counts them. */
  lemma {:induction false} ChunkFrags(l: Layout, size: nat, b: nat, chunk: nat)
    requires ValidLayout(l) && b < Extent(l, size)
    requires chunk == if size - Times(BlockBytes(l), b) > BlockBytes(l) then BlockBytes(l) else size - Times(BlockBytes(l), b)
    ensures Times(BlockBytes(l), b) < size
    ensures RunLen(l.g.frag, Lens(l, size), b) == if b >= DIRECT then l.g.frag else (chunk + l.fs - 1) / l.fs
    ensures size - Times(BlockBytes(l), b) == chunk ==> b + 1 == Extent(l, size)
    ensures size - Times(BlockBytes(l), b) > chunk ==> b + 1 < Extent(l, size)
  {
    ExtentExact(l, size, b);
    ExtentExact(l, size, b + 1);
    QuotIsDivision(l.fs, chunk + l.fs - 1);
    if chunk == BlockBytes(l) {
      QuotUnique(l.fs, l.g.frag, l.fs - 1);
    }
  }

  lemma {:induction false} NotBeyond(l: Layout, size: nat, b: nat)
    requires ValidLayout(l) && b < Extent(l, size) <= Base(l.entries, 3)
    ensures !Where(l.entries, b).Beyond?
  {
    WhereExact(l.entries, b);
  }

  lemma {:induction false} StartOfData(l: Layout, size: nat)
    requires ValidLayout(l)
    ensures Times(BlockBytes(l), 0) == 0 && (size == 0 ==> Extent(l, size) == 0) && (size > 0 ==> 0 < Extent(l, size))
  {
    ExtentExact(l, size, 0);
  }

  /** One turn of the loop over the logical blocks. */
  method FreeNext(v: Volume, node: Node, b: nat, remaining: nat, ghost l: Layout, ghost f: File, ghost size: nat) returns (chunk: nat)
    requires v.Valid() && l == v.Lay() && |node.ib| == 3 && f == NodeFile(v, node) && Shaped(l, f, Lens(l, size))
    requires b < Extent(l, size) <= Base(l.entries, 3) && Times(BlockBytes(l), b) + remaining == size
    requires Exclusive(v.Free(), StillHeld(l, f, size, b))
    modifies v`cgs, v`csum, v`total
    ensures v.Valid() && Conserved(old(v.Free()), StillHeld(l, f, size, b), v.Free(), StillHeld(l, f, size, b + 1))
    ensures chunk == if remaining > BlockBytes(l) then BlockBytes(l) else remaining
  {
    hide CountsValid, IsFree, Exclusive, Conserved, Run, Load, Sound, FileHeld, Lens, StillHeld, Block, Extent, Base, RunLen,
      Held, Times, Shaped;
    chunk := if remaining > 4 * v.entries then 4 * v.entries else remaining;
    ChunkFrags(l, size, b, chunk);
    var frags := if b >= DIRECT then v.g.frag else (chunk + v.fsize - 1) / v.fsize;
    NotBeyond(l, size, b);
    var found := Resolved(v, node, b, Lens(l, size));
    RestNext(l, f, size, b);
    FreeBlock(v, found.value, frags, StillHeld(l, f, size, b + 1), l, f, Lens(l, size), b);
  }

  /** The loop over the logical blocks: every data run becomes free. */
  method FreeBlocks(v: Volume, node: Node, ghost l: Layout, ghost f: File)
    requires v.Valid() && l == v.Lay() && |node.ib| == 3 && f == NodeFile(v, node) && Shaped(l, f, Lens(l, node.size))
    requires |f.db| == DIRECT && |f.trees| == 3
    requires Extent(l, node.size) <= Base(l.entries, 3) && Exclusive(v.Free(), StillHeld(l, f, node.size, 0))
    modifies v`cgs, v`csum, v`total
    ensures v.Valid()
    ensures Conserved(old(v.Free()), StillHeld(l, f, node.size, 0), v.Free(), StillHeld(l, f, node.size, Extent(l, node.size)))
  {
    hide CountsValid, IsFree, Exclusive, Conserved, Run, Load, Sound, FileHeld, Lens, StillHeld, Block, Extent, Base, RunLen,
      Held, Times, Shaped;
    ghost var free, size := v.Free(), node.size;
    ghost var own := StillHeld(l, f, size, 0);
    ConservedSelf(free, own);
    StartOfData(l, size);
    var remaining: nat := node.size;
    var b: nat := 0;
    while remaining > 0
      invariant v.Valid() && b <= Extent(l, size)
      invariant b < Extent(l, size) ==> Times(BlockBytes(l), b) + remaining == size
      invariant remaining == 0 <==> b == Extent(l, size)
      invariant Conserved(free, own, v.Free(), StillHeld(l, f, size, b))
    {
      StillExclusive(free, own, v.Free(), StillHeld(l, f, size, b));
      ghost var before := v.Free();
      var chunk := FreeNext(v, node, b, remaining, l, f, size);
      ConservedTwice(free, own, before, StillHeld(l, f, size, b), v.Free(), StillHeld(l, f, size, b + 1));
      NextRemaining(l, size, b, chunk);
      remaining := remaining - chunk;
      b := b + 1;
    }
  }

  method FreeData(v: Volume, node: Node)
    requires AtRest(v, node)
    modifies v`cgs, v`csum, v`total
    ensures v.Valid()
    ensures Conserved(old(v.Free()), old(OwnedBy(v, node)), v.Free(),
      FileHeld(v.g.frag, NodeFile(v, node), Lens(v.Lay(), node.size), false))
  {
    hide CountsValid, IsFree, Exclusive, Conserved, Run, Load, Sound, FileHeld, Lens, StillHeld, Block, NothingPast, Extent,
      Base, RunLen,
      Held, Times, Shaped;
    ghost var l, f, size := v.Lay(), NodeFile(v, node), node.size;
    AtRestSplit(l, v.spf, Img(v), f, size, node.blocks);
    RestZero(l, f, size);
    FreeBlocks(v, node, l, f);
    RestEnd(l, f, size);
  }

  lemma {:induction false} NextRemaining(l: Layout, size: nat, b: nat, chunk: nat)
    requires ValidLayout(l) && b < Extent(l, size) && Times(BlockBytes(l), b) <= size
    requires chunk == if size - Times(BlockBytes(l), b) > BlockBytes(l) then BlockBytes(l) else size - Times(BlockBytes(l), b)
    ensures b + 1 < Extent(l, size) ==> size - Times(BlockBytes(l), b) - chunk == size - Times(BlockBytes(l), b + 1)
    ensures size - Times(BlockBytes(l), b) == chunk <==> b + 1 == Extent(l, size)
  {
    ExtentExact(l, size, b);
    ExtentExact(l, size, b + 1);
  }

  lemma {:induction false} RestZero(l: Layout, f: File, size: nat)
    requires ValidLayout(l) && |f.db| == DIRECT && |f.trees| == 3
    ensures StillHeld(l, f, size, 0)
      == FileHeld(l.g.frag, f, Lens(l, size), false) + Data(l, f, Lens(l, size), 0, Extent(l, size))
  {
  }

  lemma {:induction false} RestEnd(l: Layout, f: File, size: nat)
    requires ValidLayout(l) && |f.db| == DIRECT && |f.trees| == 3
    ensures StillHeld(l, f, size, Extent(l, size)) == FileHeld(l.g.frag, f, Lens(l, size), false)
  {
    hide FileHeld, Extent, Lens, Data;
    DataSnoc(l, f, Lens(l, size), Extent(l, size), Extent(l, size));
  }

  method FreeBlock(v: Volume, x: nat, frags: nat, ghost rest: multiset<nat>, ghost l: Layout, ghost f: File, ghost lens: seq<nat>,
      ghost b: nat)
    requires v.Valid() && l == v.Lay() && Shaped(l, f, lens) && x == Block(l.entries, f, b) && frags == RunLen(l.g.frag, lens, b)
    requires Exclusive(v.Free(), rest + Held(x, frags))
    modifies v`cgs, v`csum, v`total
    ensures v.Valid() && Conserved(old(v.Free()), rest + Held(x, frags), v.Free(), rest)
  {
    hide CountsValid, IsFree, Exclusive, Conserved, Run, Shaped, Block, RunLen;
    if x != 0 {
      BlockRun(l, f, lens, b);
      ReleaseRun(v, x, frags, rest);
    } else {
      assert rest + multiset{} == rest;
      ConservedSelf(v.Free(), rest);
    }
  }

  /** A tree of a file at rest, with its index blocks still held. */
  lemma {:induction false} TreeIndex(l: Layout, d: seq<Byte>, db: seq<nat>, ib: seq<nat>, lens: seq<nat>, slot: nat)
    requires ValidLayout(l) && OnDisk(l, d) && |ib| == 3 && slot < 3 && Shaped(l, FileOf(l, d, db, ib), lens)
    ensures var f := FileOf(l, d, db, ib);
      && Load(l, d, ib[slot], slot + 1) == f.trees[slot] && Sound(l, f.trees[slot], slot + 1)
  {
  }

  /** The index blocks of the trees from `slot` on. */
  function TreesFrom(frag: nat, f: File, slot: nat): multiset<nat>
    requires |f.trees| == 3 && slot <= 3
    decreases 3 - slot
  {
    if slot == 3 then multiset{} else TreesFrom(frag, f, slot + 1) + Owned(frag, f.trees[slot], false)
  }

  lemma {:induction false} IndexOfFile(frag: nat, f: File, lens: seq<nat>)
    requires |f.db| == |lens| == DIRECT && |f.trees| == 3
    ensures FileHeld(frag, f, lens, false) == TreesFrom(frag, f, 0)
  {
    hide Owned, Union;
    var ms := FileParts(frag, f, lens, false);
    UnionFront(ms, 12);
    UnionSnoc(ms, 12);
    UnionSnoc(ms, 13);
    UnionSnoc(ms, 14);
    assert ms[..15] == ms;
    assert TreesFrom(frag, f, 3) == multiset{};
    assert TreesFrom(frag, f, 2) == multiset{} + Owned(frag, f.trees[2], false);
    assert TreesFrom(frag, f, 1) == TreesFrom(frag, f, 2) + Owned(frag, f.trees[1], false);
  }

  lemma {:induction false} UnionFront(ms: seq<multiset<nat>>, n: nat)
    requires n <= |ms| && forall i | 0 <= i < n :: ms[i] == multiset{}
    ensures Union(ms[..n]) == multiset{}
  {
    UnionEmpty(ms[..n]);
  }

  method FreeTree(v: Volume, node: Node, slot: nat, ghost l: Layout, ghost f: File, ghost lens: seq<nat>)
    requires v.Valid() && l == v.Lay() && |node.ib| == 3 && f == NodeFile(v, node) && Shaped(l, f, lens) && slot < 3
    requires Exclusive(v.Free(), TreesFrom(l.g.frag, f, slot))
    modifies v`cgs, v`csum, v`total
    ensures v.Valid() && Conserved(old(v.Free()), TreesFrom(l.g.frag, f, slot), v.Free(), TreesFrom(l.g.frag, f, slot + 1))
  {
    hide CountsValid, IsFree, Exclusive, Conserved, Load, Sound, Owned, TreesFrom, Shaped;
    TreeIndex(l, v.data, node.db, node.ib, lens, slot);
    TreesStep(l.g.frag, f, slot);
    FreeIndexTree(v, node.ib[slot], slot + 1, f.trees[slot], TreesFrom(l.g.frag, f, slot + 1));
  }

  /** The loop over the three trees. */
  method FreeTrees(v: Volume, node: Node, ghost lens: seq<nat>)
    requires v.Valid() && |node.ib| == 3 && Shaped(v.Lay(), NodeFile(v, node), lens)
    requires Exclusive(v.Free(), FileHeld(v.g.frag, NodeFile(v, node), lens, false))
    modifies v`cgs, v`csum, v`total
    ensures v.Valid()
    ensures Conserved(old(v.Free()), FileHeld(v.g.frag, NodeFile(v, node), lens, false), v.Free(), multiset{})
  {
    ghost var l, f, free := v.Lay(), NodeFile(v, node), v.Free();
    IndexOfFile(v.g.frag, f, lens);
    hide CountsValid, IsFree, Exclusive, Conserved, Load, Sound, FileHeld, Owned, TreesFrom, Shaped;
    ghost var own := TreesFrom(l.g.frag, f, 0);
    ConservedSelf(free, own);
    for slot := 0 to 3
      invariant v.Valid() && f == NodeFile(v, node) && Conserved(free, own, v.Free(), TreesFrom(l.g.frag, f, slot))
    {
      StillExclusive(free, own, v.Free(), TreesFrom(l.g.frag, f, slot));
      ghost var before := v.Free();
      FreeTree(v, node, slot, l, f, lens);
      ConservedTwice(free, own, before, TreesFrom(l.g.frag, f, slot), v.Free(), TreesFrom(l.g.frag, f, slot + 1));
    }
    TreesEnd(l.g.frag, f);
  }

  lemma {:induction false} TreesStep(frag: nat, f: File, slot: nat)
    requires |f.trees| == 3 && slot < 3
    ensures TreesFrom(frag, f, slot) == TreesFrom(frag, f, slot + 1) + Owned(frag, f.trees[slot], false)
  {
  }

  lemma {:induction false} TreesEnd(frag: nat, f: File)
    requires |f.trees| == 3
    ensures TreesFrom(frag, f, 3) == multiset{}
  {
  }

  function NoPointers(n: nat): (s: seq<nat>)
    ensures |s| == n
  {
    seq(n, _ => 0)
  }

  /** An inode without pointers and of size zero is an empty file. */
  lemma {:induction false} EmptyFile(l: Layout, spf: nat, m: Image)
    requires ValidLayout(l) && OnDisk(l, m.d)
    ensures var f := FileOf(l, m.d, NoPointers(DIRECT), NoPointers(3));
      FileOk(l, spf, m, f, 0, 0) && FileHeld(l.g.frag, f, Lens(l, 0), true) == multiset{}
  {
    var f := FileOf(l, m.d, NoPointers(DIRECT), NoPointers(3));
    var lens := Lens(l, 0);
    StartOfData(l, 0);
    forall data
      ensures FileHeld(l.g.frag, f, lens, data) == multiset{}
    {
      UnionEmpty(FileParts(l.g.frag, f, lens, data));
    }
    forall b: nat
      ensures Block(l.entries, f, b) == 0
    {
    }
    BaseDirect(l.entries, 3);
  }

  lemma {:induction false} EmptyAtRest(v: Volume, node: Node)
    requires v.Valid() && node.size == 0 && node.blocks == 0 && node.db == NoPointers(DIRECT) && node.ib == NoPointers(3)
    ensures AtRest(v, node) && OwnedBy(v, node) == multiset{}
  {
    EmptyFile(v.Lay(), v.spf, Img(v));
  }

  /** `nextufs__free_file_storage`: it cannot fail, everything the file held is free afterwards, and no
      byte of the volume is written. */
  method Free(v: Volume, node: Node)
    requires AtRest(v, node)
    modifies v`cgs, v`csum, v`total, node
    ensures AtRest(v, node) && node.size == 0 && node.blocks == 0
    ensures Conserved(old(v.Free()), old(OwnedBy(v, node)), v.Free(), multiset{})
    ensures OwnedBy(v, node) == multiset{}
  {
    hide CountsValid, IsFree, Conserved, Run, Load, Sound, FileHeld, NothingPast, Held, Times;
    ghost var free, own, lens := v.Free(), OwnedBy(v, node), Lens(v.Lay(), node.size);
    ghost var index := FileHeld(v.g.frag, NodeFile(v, node), lens, false);
    FreeData(v, node);
    StillExclusive(free, own, v.Free(), index);
    ghost var before := v.Free();
    FreeTrees(v, node, lens);
    ConservedTwice(free, own, before, index, v.Free(), multiset{});
    node.db, node.ib := NoPointers(DIRECT), NoPointers(3);
    node.size, node.blocks := 0, 0;
    EmptyAtRest(v, node);
  }
}
