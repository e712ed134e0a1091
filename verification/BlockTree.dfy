/** Indirect block trees. A tree is decoded from the disk bytes; storing a pointer and pruning are
    defined as functions on decoded trees, and the methods that edit index blocks are proved to
    realise exactly those functions on disk. */
module BlockTree {
  import opened Scale
  import opened Ledger
  import opened Volume

  /** Index blocks hold big-endian fragment numbers; a zero entry is a hole. */
  datatype Tree = Hole | Leaf(x: nat) | Index(x: nat, kids: seq<Tree>)

  /** Logical blocks below one pointer that stands `level` index blocks above the data. */
  function Span(n: nat, level: nat): (s: nat)
    requires 0 < n
    ensures 0 < s
  {
    if level == 0 then 1
    else
      TimesMonotone(Span(n, level - 1), 0, n);
      Times(Span(n, level - 1), n)
  }

  ghost predicate BlockOk(l: Layout, x: nat)
    requires ValidLayout(l)
  {
    0 < x && InOneBlock(l.g, l.lens, x, l.g.frag)
  }

  lemma InsideSlice(l: Layout, x: nat, n: nat)
    requires ValidLayout(l) && InOneBlock(l.g, l.lens, x, n)
    ensures x + n <= l.fragCount
  {
    var c := Quot(l.g.fpg, x);
    assert Times(l.g.fpg, c) + l.lens[c] <= l.fragCount;
  }

  predicate OnDisk(l: Layout, d: seq<Byte>) {
    |d| == Times(l.fs, l.fragCount)
  }

  lemma RunFits(l: Layout, x: nat, n: nat)
    requires x + n <= l.fragCount
    ensures Times(l.fs, x) + Times(l.fs, n) <= Times(l.fs, l.fragCount)
  {
    TimesAdd(l.fs, x, n);
    TimesAdd(l.fs, x + n, l.fragCount - (x + n));
  }

  /** The pointers in index block `x`. */
  function Words(l: Layout, d: seq<Byte>, x: nat): (w: seq<nat>)
    requires ValidLayout(l) && OnDisk(l, d) && x + l.g.frag <= l.fragCount
    ensures |w| == l.entries
    ensures forall i | 0 <= i < |w| :: w[i] < 0x1_0000_0000
  {
    RunFits(l, x, l.g.frag);
    seq(l.entries, i requires 0 <= i < l.entries => Read32(d, Times(l.fs, x) + 4 * i))
  }

  function Load(l: Layout, d: seq<Byte>, x: nat, level: nat): Tree
    requires ValidLayout(l) && OnDisk(l, d)
    decreases level
  {
    if x == 0 then Hole
    else if level == 0 then Leaf(x)
    else if x + l.g.frag > l.fragCount then Index(x, [])
    else
      var w := Words(l, d, x);
      Index(x, seq(l.entries, i requires 0 <= i < l.entries => Load(l, d, w[i], level - 1)))
  }

  /** Every block of the tree is a whole block inside the slice. */
  ghost predicate Sound(l: Layout, t: Tree, level: nat)
    requires ValidLayout(l)
  {
    match t
    case Hole => true
    case Leaf(x) => level == 0 && BlockOk(l, x)
    case Index(x, kids) =>
      0 < level && BlockOk(l, x) && |kids| == l.entries && forall i | 0 <= i < |kids| :: Sound(l, kids[i], level - 1)
  }

  /** Fragment numbers held by the tree, with multiplicity; `data` says whether leaves count. */
  function Owned(frag: nat, t: Tree, data: bool): multiset<nat> {
    match t
    case Hole => multiset{}
    case Leaf(x) => if data then Run(x, frag) else multiset{}
    case Index(x, kids) => Run(x, frag) + Union(seq(|kids|, i requires 0 <= i < |kids| => Owned(frag, kids[i], data)))
  }

  function Parts(frag: nat, kids: seq<Tree>, data: bool): seq<multiset<nat>> {
    seq(|kids|, i requires 0 <= i < |kids| => Owned(frag, kids[i], data))
  }

  lemma OwnedIndex(frag: nat, t: Tree, data: bool)
    requires t.Index?
    ensures Owned(frag, t, data) == Run(t.x, frag) + Union(Parts(frag, t.kids, data))
  {
    assert Parts(frag, t.kids, data) == seq(|t.kids|, i requires 0 <= i < |t.kids| => Owned(frag, t.kids[i], data));
  }

  /** A tree holds at least its index blocks. */
  lemma IndexLess(frag: nat, t: Tree, y: nat)
    ensures Owned(frag, t, false)[y] <= Owned(frag, t, true)[y]
  {
    if t.Index? {
      OwnedIndex(frag, t, false);
      OwnedIndex(frag, t, true);
      forall i | 0 <= i < |t.kids| ensures Parts(frag, t.kids, false)[i][y] <= Parts(frag, t.kids, true)[i][y] {
        IndexLess(frag, t.kids[i], y);
      }
      UnionLess(Parts(frag, t.kids, false), Parts(frag, t.kids, true), y);
    }
  }

  lemma OwnedUpdate(frag: nat, t: Tree, i: nat, kid: Tree, data: bool)
    requires t.Index? && i < |t.kids|
    ensures Owned(frag, t.(kids := t.kids[i := kid]), data) + Owned(frag, t.kids[i], data)
         == Owned(frag, t, data) + Owned(frag, kid, data)
  {
    hide Owned, Run, Union;
    var t' := t.(kids := t.kids[i := kid]);
    var ms, m := Parts(frag, t.kids, data), Owned(frag, kid, data);
    OwnedIndex(frag, t, data);
    OwnedIndex(frag, t', data);
    assert Parts(frag, t'.kids, data) == ms[i := m];
    UnionUpdate(ms, i, m);
    Swap(Union(ms[i := m]), ms[i], Union(ms), m, Run(t.x, frag));
  }

  /** Parent and children never hold more than the whole tree. */
  lemma OwnedPair(frag: nat, t: Tree, i: nat, j: nat, data: bool, y: nat)
    requires t.Index? && i < |t.kids| && j < |t.kids|
    ensures Run(t.x, frag)[y] + Owned(frag, t.kids[i], data)[y] <= Owned(frag, t, data)[y]
    ensures i != j ==> Owned(frag, t.kids[i], data)[y] + Owned(frag, t.kids[j], data)[y] <= Owned(frag, t, data)[y]
  {
    OwnedIndex(frag, t, data);
    UnionPair(Parts(frag, t.kids, data), i, j, y);
  }

  // ----- framing -----

  /** Index blocks that did not change load as the same tree. */
  lemma {:induction false} LoadFrame(l: Layout, d: seq<Byte>, d': seq<Byte>, x: nat, level: nat)
    requires ValidLayout(l) && OnDisk(l, d) && OnDisk(l, d')
    requires Sound(l, Load(l, d, x, level), level)
    requires forall y | Owned(l.g.frag, Load(l, d, x, level), false)[y] > 0 :: SameFrag(l.fs, d, d', y)
    ensures Load(l, d', x, level) == Load(l, d, x, level)
    decreases level
  {
    if x != 0 && level > 0 {
      var t := Load(l, d, x, level);
      InsideSlice(l, x, l.g.frag);
      forall y | x <= y < x + l.g.frag ensures SameFrag(l.fs, d, d', y) {
        assert Owned(l.g.frag, t, false)[y] > 0;
      }
      WordsFrame(l, d, d', x);
      var w := Words(l, d, x);
      forall i | 0 <= i < l.entries ensures Load(l, d', w[i], level - 1) == Load(l, d, w[i], level - 1) {
        forall y | Owned(l.g.frag, t.kids[i], false)[y] > 0 ensures SameFrag(l.fs, d, d', y) {
          OwnedPair(l.g.frag, t, i, i, false, y);
        }
        LoadFrame(l, d, d', w[i], level - 1);
      }
      assert Load(l, d', x, level).kids == t.kids;
    }
  }

  lemma WordsFrame(l: Layout, d: seq<Byte>, d': seq<Byte>, x: nat)
    requires ValidLayout(l) && OnDisk(l, d) && OnDisk(l, d') && x + l.g.frag <= l.fragCount
    requires forall y | x <= y < x + l.g.frag :: SameFrag(l.fs, d, d', y)
    ensures Words(l, d', x) == Words(l, d, x)
  {
    RunFits(l, x, l.g.frag);
    RunSame(l.fs, d, d', x, l.g.frag);
    forall i | 0 <= i < l.entries ensures Words(l, d', x)[i] == Words(l, d, x)[i] {
      var p := Times(l.fs, x) + 4 * i;
      assert d'[p] == d[p] && d'[p + 1] == d[p + 1] && d'[p + 2] == d[p + 2] && d'[p + 3] == d[p + 3];
    }
  }

  // ----- lookup -----

  /** Entry of logical block `idx` in the top index block, and its position below that entry. */
  function Slot(n: nat, level: nat, idx: nat): (e: nat)
    requires 0 < n && 0 < level && idx < Span(n, level)
    ensures e < n && Times(Span(n, level - 1), e) <= idx < Times(Span(n, level - 1), e) + Span(n, level - 1)
  {
    QuotBelow(Span(n, level - 1), idx, n);
    Quot(Span(n, level - 1), idx)
  }

  function Rest(n: nat, level: nat, idx: nat): (r: nat)
    requires 0 < n && 0 < level && idx < Span(n, level)
    ensures r < Span(n, level - 1)
  {
    idx - Times(Span(n, level - 1), Slot(n, level, idx))
  }

  /** The fragment that logical block `idx` points to; zero is a hole. */
  function Get(n: nat, t: Tree, level: nat, idx: nat): nat
    requires 0 < n && idx < Span(n, level)
    decreases level
  {
    match t
    case Hole => 0
    case Leaf(x) => x
    case Index(x, kids) =>
      if level == 0 || |kids| != n then 0
      else Get(n, kids[Slot(n, level, idx)], level - 1, Rest(n, level, idx))
  }

  function Blank(n: nat, x: nat): Tree {
    Index(x, seq(n, _ => Hole))
  }

  // ----- storing one pointer -----

  /** The length `n`, if runs of it are asked for at all. */
  function IfAny(n: nat, runs: nat): set<nat> {
    if runs == 0 then {} else {n}
  }

  /** How many index blocks the path to `idx` lacks. */
  function Missing(n: nat, t: Tree, level: nat, idx: nat): nat
    requires 0 < n && idx < Span(n, level)
    decreases level
  {
    if level == 0 then 0
    else match t
      case Hole => level
      case Leaf(x) => 0
      case Index(x, kids) =>
        if |kids| != n then 0 else Missing(n, kids[Slot(n, level, idx)], level - 1, Rest(n, level, idx))
  }

  /** The tree after `leaf` is stored at `idx`, taking the blocks `extra`, top down, for the missing
      index blocks. */
  function Graft(n: nat, t: Tree, level: nat, idx: nat, leaf: nat, extra: seq<nat>): Tree
    requires 0 < n && idx < Span(n, level) && |extra| == Missing(n, t, level, idx)
    decreases level, if t.Hole? then 1 else 0
  {
    if level == 0 then Leaf(leaf)
    else match t
      case Hole => Graft(n, Blank(n, extra[0]), level, idx, leaf, extra[1..])
      case Leaf(x) => t
      case Index(x, kids) =>
        if |kids| != n then t
        else
          var e := Slot(n, level, idx);
          t.(kids := kids[e := Graft(n, kids[e], level - 1, Rest(n, level, idx), leaf, extra)])
  }

  /** Storing a pointer changes that logical block and no other, at every level. */
  lemma {:induction false} GraftGet(l: Layout, t: Tree, level: nat, idx: nat, leaf: nat, extra: seq<nat>, j: nat)
    requires ValidLayout(l) && Sound(l, t, level) && idx < Span(l.entries, level) && j < Span(l.entries, level)
    requires |extra| == Missing(l.entries, t, level, idx) && forall f | f in extra :: BlockOk(l, f)
    ensures Get(l.entries, Graft(l.entries, t, level, idx, leaf, extra), level, j)
         == if j == idx then leaf else Get(l.entries, t, level, j)
    decreases level, if t.Hole? then 1 else 0
  {
    var n := l.entries;
    if level > 0 {
      if t.Hole? {
        BlankSound(l, extra[0], level);
        GraftGet(l, Blank(n, extra[0]), level, idx, leaf, extra[1..], j);
      } else if Slot(n, level, j) == Slot(n, level, idx) {
        GraftGet(l, t.kids[Slot(n, level, idx)], level - 1, Rest(n, level, idx), leaf, extra, Rest(n, level, j));
      }
    }
  }

  lemma BlankSound(l: Layout, x: nat, level: nat)
    requires ValidLayout(l) && BlockOk(l, x) && 0 < level
    ensures Sound(l, Blank(l.entries, x), level)
  {
  }

  lemma {:induction false} GraftSound(l: Layout, t: Tree, level: nat, idx: nat, leaf: nat, extra: seq<nat>)
    requires ValidLayout(l) && Sound(l, t, level) && idx < Span(l.entries, level)
    requires |extra| == Missing(l.entries, t, level, idx) && BlockOk(l, leaf) && forall f | f in extra :: BlockOk(l, f)
    ensures Sound(l, Graft(l.entries, t, level, idx, leaf, extra), level)
    decreases level, if t.Hole? then 1 else 0
  {
    var n := l.entries;
    if level > 0 {
      if t.Hole? {
        BlankSound(l, extra[0], level);
        GraftSound(l, Blank(n, extra[0]), level, idx, leaf, extra[1..]);
      } else {
        GraftSound(l, t.kids[Slot(n, level, idx)], level - 1, Rest(n, level, idx), leaf, extra);
      }
    }
  }

  /** Whole blocks held by a list of pointers. */
  function Blocks(frag: nat, xs: seq<nat>): multiset<nat> {
    if |xs| == 0 then multiset{} else Run(xs[0], frag) + Blocks(frag, xs[1..])
  }

  /** What the leaf at `idx` contributes. */
  function LeafHeld(frag: nat, x: nat, data: bool): multiset<nat> {
    if data then Held(x, frag) else multiset{}
  }

  /** One tree replaces another, giving up `x` and gaining `y`. */
  ghost predicate Traded(frag: nat, data: bool, t: Tree, t': Tree, x: multiset<nat>, y: multiset<nat>) {
    Owned(frag, t', data) + x == Owned(frag, t, data) + y
  }

  /** Storing a pointer gives up the old leaf and gains the new one and the fresh index blocks. */
  lemma {:induction false} GraftOwned(l: Layout, t: Tree, level: nat, idx: nat, leaf: nat, extra: seq<nat>, data: bool)
    requires ValidLayout(l) && Sound(l, t, level) && idx < Span(l.entries, level) && 0 < leaf
    requires |extra| == Missing(l.entries, t, level, idx) && forall f | f in extra :: BlockOk(l, f)
    ensures Traded(l.g.frag, data, t, Graft(l.entries, t, level, idx, leaf, extra),
                   LeafHeld(l.g.frag, Get(l.entries, t, level, idx), data),
                   LeafHeld(l.g.frag, leaf, data) + Blocks(l.g.frag, extra))
    decreases level, if t.Hole? then 1 else 0
  {
    var n, f := l.entries, l.g.frag;
    if level == 0 {
      LeafTraded(l, t, leaf, data);
    } else if t.Hole? {
      BlankSound(l, extra[0], level);
      var b := Blank(n, extra[0]);
      GraftOwned(l, b, level, idx, leaf, extra[1..], data);
      assert Get(n, b, level, idx) == 0;
      BlankTraded(f, n, Graft(n, b, level, idx, leaf, extra[1..]), LeafHeld(f, leaf, data), extra, data);
    } else {
      var e, r := Slot(n, level, idx), Rest(n, level, idx);
      GraftOwned(l, t.kids[e], level - 1, r, leaf, extra, data);
      KidTraded(f, t, e, Graft(n, t.kids[e], level - 1, r, leaf, extra), data,
                LeafHeld(f, Get(n, t.kids[e], level - 1, r), data), LeafHeld(f, leaf, data) + Blocks(f, extra));
    }
  }

  lemma LeafTraded(l: Layout, t: Tree, leaf: nat, data: bool)
    requires ValidLayout(l) && Sound(l, t, 0) && 0 < leaf
    ensures Traded(l.g.frag, data, t, Leaf(leaf), LeafHeld(l.g.frag, Get(l.entries, t, 0, 0), data),
                   LeafHeld(l.g.frag, leaf, data) + Blocks(l.g.frag, []))
  {
  }

  lemma BlankTraded(frag: nat, n: nat, t: Tree, b: multiset<nat>, extra: seq<nat>, data: bool)
    requires |extra| > 0
    requires Traded(frag, data, Blank(n, extra[0]), t, LeafHeld(frag, 0, data), b + Blocks(frag, extra[1..]))
    ensures Traded(frag, data, Hole, t, LeafHeld(frag, 0, data), b + Blocks(frag, extra))
  {
    BlankOwned(frag, n, extra[0], data);
    var r, q := Run(extra[0], frag), Blocks(frag, extra[1..]);
    assert b + (r + q) == r + (b + q);
  }

  /** What a child gains and loses, its parent gains and loses. */
  lemma KidTraded(frag: nat, t: Tree, e: nat, kid: Tree, data: bool, x: multiset<nat>, y: multiset<nat>)
    requires t.Index? && e < |t.kids| && Traded(frag, data, t.kids[e], kid, x, y)
    ensures Traded(frag, data, t, t.(kids := t.kids[e := kid]), x, y)
  {
    OwnedUpdate(frag, t, e, kid, data);
    Exchange(Owned(frag, t.(kids := t.kids[e := kid]), data), Owned(frag, t.kids[e], data), Owned(frag, t, data),
             Owned(frag, kid, data), x, y);
  }

  lemma Exchange(a: multiset<nat>, k: multiset<nat>, b: multiset<nat>, k': multiset<nat>, x: multiset<nat>, y: multiset<nat>)
    requires a + k == b + k' && k' + x == k + y
    ensures a + x == b + y
  {
    forall i: nat ensures (a + x)[i] == (b + y)[i] {
      assert (a + k)[i] == (b + k')[i] && (k' + x)[i] == (k + y)[i];
    }
  }

  lemma BlankOwned(frag: nat, n: nat, x: nat, data: bool)
    ensures Owned(frag, Blank(n, x), data) == Run(x, frag)
  {
    OwnedIndex(frag, Blank(n, x), data);
    UnionEmpty(Parts(frag, Blank(n, x).kids, data));
  }

  // ----- pruning -----

  predicate AllHoles(kids: seq<Tree>) {
    forall i | 0 <= i < |kids| :: kids[i].Hole?
  }

  /** The tree without the data blocks at or beyond `keep` and without index blocks that hold nothing;
      `base` is the logical number of its first data block. */
  function Prune(n: nat, t: Tree, level: nat, base: nat, keep: nat): Tree
    requires 0 < n
    decreases t
  {
    match t
    case Hole => Hole
    case Leaf(x) => if base >= keep then Hole else t
    case Index(x, kids) =>
      if level == 0 then t
      else
        var ks := seq(|kids|, i requires 0 <= i < |kids| =>
                    Prune(n, kids[i], level - 1, base + Times(Span(n, level - 1), i), keep));
        if AllHoles(ks) then Hole else Index(x, ks)
  }

  function PrunedKid(n: nat, t: Tree, level: nat, base: nat, keep: nat, i: nat): Tree
    requires 0 < n && t.Index? && 0 < level && i < |t.kids|
  {
    Prune(n, t.kids[i], level - 1, base + Times(Span(n, level - 1), i), keep)
  }

  function PrunedKids(n: nat, t: Tree, level: nat, base: nat, keep: nat): (ks: seq<Tree>)
    requires 0 < n && t.Index? && 0 < level
    ensures |ks| == |t.kids| && forall i | 0 <= i < |ks| :: ks[i] == PrunedKid(n, t, level, base, keep, i)
  {
    seq(|t.kids|, i requires 0 <= i < |t.kids| => PrunedKid(n, t, level, base, keep, i))
  }

  lemma PruneIndex(n: nat, t: Tree, level: nat, base: nat, keep: nat)
    requires 0 < n && t.Index? && 0 < level
    ensures var ks := PrunedKids(n, t, level, base, keep);
      Prune(n, t, level, base, keep) == if AllHoles(ks) then Hole else Index(t.x, ks)
  {
    var ks := seq(|t.kids|, i requires 0 <= i < |t.kids| =>
                Prune(n, t.kids[i], level - 1, base + Times(Span(n, level - 1), i), keep));
    assert ks == PrunedKids(n, t, level, base, keep);
  }

  lemma {:induction false} PruneSound(l: Layout, t: Tree, level: nat, base: nat, keep: nat)
    requires ValidLayout(l) && Sound(l, t, level)
    ensures Sound(l, Prune(l.entries, t, level, base, keep), level)
    decreases t
  {
    if t.Index? {
      PruneIndex(l.entries, t, level, base, keep);
      var ks := PrunedKids(l.entries, t, level, base, keep);
      forall i | 0 <= i < |ks| ensures Sound(l, ks[i], level - 1) {
        PruneSound(l, t.kids[i], level - 1, base + Times(Span(l.entries, level - 1), i), keep);
      }
    }
  }

  /** Exactly the data blocks at or beyond `keep` disappear. */
  lemma {:induction false} PruneGet(l: Layout, t: Tree, level: nat, base: nat, keep: nat, j: nat)
    requires ValidLayout(l) && Sound(l, t, level) && j < Span(l.entries, level)
    ensures Get(l.entries, Prune(l.entries, t, level, base, keep), level, j)
         == if base + j >= keep then 0 else Get(l.entries, t, level, j)
    decreases t
  {
    if t.Index? {
      var n := l.entries;
      PruneIndex(n, t, level, base, keep);
      var e := Slot(n, level, j);
      var first := Times(Span(n, level - 1), e);
      PruneGet(l, t.kids[e], level - 1, base + first, keep, Rest(n, level, j));
      assert base + j == base + first + Rest(n, level, j);
      assert PrunedKids(n, t, level, base, keep)[e] == PrunedKid(n, t, level, base, keep, e);
    }
  }

  /** Logical block `r` below child `e`. */
  lemma ChildBlock(n: nat, level: nat, e: nat, r: nat)
    requires 0 < n && 0 < level && e < n && r < Span(n, level - 1)
    ensures var j := Times(Span(n, level - 1), e) + r;
      j < Span(n, level) && Slot(n, level, j) == e && Rest(n, level, j) == r
  {
    TimesMonotone(Span(n, level - 1), e, n);
    QuotUnique(Span(n, level - 1), e, r);
  }

  /** No data block below `keep`. */
  ghost predicate Vacant(n: nat, t: Tree, level: nat, base: nat, keep: nat)
    requires 0 < n
  {
    forall j: nat | j < Span(n, level) :: EmptyAt(n, t, level, base, keep, j)
  }

  predicate EmptyAt(n: nat, t: Tree, level: nat, base: nat, keep: nat, j: nat)
    requires 0 < n && j < Span(n, level)
  {
    base + j >= keep || Get(n, t, level, j) == 0
  }

  lemma VacantKid(n: nat, t: Tree, level: nat, base: nat, keep: nat, e: nat)
    requires 0 < n && 0 < level && t.Index? && |t.kids| == n && e < n && Vacant(n, t, level, base, keep)
    ensures Vacant(n, t.kids[e], level - 1, base + Times(Span(n, level - 1), e), keep)
  {
    var below, kid := level - 1, t.kids[e];
    var first := base + Times(Span(n, below), e);
    forall r: nat | r < Span(n, below) ensures EmptyAt(n, kid, below, first, keep, r) {
      ChildBlock(n, level, e, r);
      assert EmptyAt(n, t, level, base, keep, Times(Span(n, below), e) + r);
    }
  }

  /** A tree disappears entirely exactly when no data block below `keep` is left in it, so an index
      block survives only above surviving data. */
  lemma {:induction false} PruneEmpty(l: Layout, t: Tree, level: nat, base: nat, keep: nat)
    requires ValidLayout(l) && Sound(l, t, level)
    ensures Prune(l.entries, t, level, base, keep).Hole? <==> Vacant(l.entries, t, level, base, keep)
    decreases t
  {
    var n := l.entries;
    if Prune(n, t, level, base, keep).Hole? {
      forall j: nat | j < Span(n, level) ensures EmptyAt(n, t, level, base, keep, j) {
        PruneGet(l, t, level, base, keep, j);
      }
    }
    if Vacant(n, t, level, base, keep) {
      if t.Leaf? {
        assert EmptyAt(n, t, level, base, keep, 0);
      } else if t.Index? {
        PruneIndex(n, t, level, base, keep);
        forall e | 0 <= e < n ensures PrunedKids(n, t, level, base, keep)[e].Hole? {
          VacantKid(n, t, level, base, keep, e);
          PruneEmpty(l, t.kids[e], level - 1, base + Times(Span(n, level - 1), e), keep);
        }
      }
    }
  }
}
