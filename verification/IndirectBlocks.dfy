/** Reading and editing index blocks on disk: resolving a logical block, storing a pointer with the
    index blocks it lacks, and the error checks around both. */
module IndirectBlocks {
  import opened Scale
  import opened Ledger
  import opened Options
  import opened Volume
  import opened BlockTree

  // ----- one entry -----

  /** Where entry `e` of block `x` lies. */
  lemma EntryFits(l: Layout, d: seq<Byte>, x: nat, e: nat)
    requires ValidLayout(l) && OnDisk(l, d) && x + l.g.frag <= l.fragCount && e < l.entries
    ensures Times(l.fs, x) + 4 * e + 4 <= Times(l.fs, x) + Times(l.fs, l.g.frag) <= |d|
  {
    RunFits(l, x, l.g.frag);
  }

  lemma WordAfter(l: Layout, d: seq<Byte>, d': seq<Byte>, x: nat, e: nat, w: nat, j: nat)
    requires ValidLayout(l) && OnDisk(l, d) && x + l.g.frag <= l.fragCount && e < l.entries && w < 0x1_0000_0000
    requires j < l.entries && Times(l.fs, x) + 4 * e + 4 <= |d| && d' == Put(d, Times(l.fs, x) + 4 * e, Write32(w))
    ensures Words(l, d', x)[j] == if j == e then w else Words(l, d, x)[j]
  {
    var base := Times(l.fs, x);
    WordAt(l, d, x, j);
    WordAt(l, d', x, j);
    assert Read32(d', base + 4 * j) == if j == e then w else Read32(d, base + 4 * j) by {
      PutWord(d, base, e, w, j);
    }
  }

  lemma WordAt(l: Layout, d: seq<Byte>, x: nat, j: nat)
    requires ValidLayout(l) && OnDisk(l, d) && x + l.g.frag <= l.fragCount && j < l.entries
    ensures Times(l.fs, x) + 4 * j + 4 <= |d| && Words(l, d, x)[j] == Read32(d, Times(l.fs, x) + 4 * j)
  {
    EntryFits(l, d, x, j);
  }

  /** Storing one pointer changes one word of one block. */
  lemma EntryWritten(l: Layout, d: seq<Byte>, x: nat, e: nat, w: nat)
    requires ValidLayout(l) && OnDisk(l, d) && x + l.g.frag <= l.fragCount && e < l.entries && w < 0x1_0000_0000
    ensures Times(l.fs, x) + 4 * e + 4 <= |d|
    ensures var d' := Put(d, Times(l.fs, x) + 4 * e, Write32(w));
      Words(l, d', x) == Words(l, d, x)[e := w] && SameElsewhere(l.fs, d, d', x, l.g.frag)
  {
    EntryFits(l, d, x, e);
    PutElsewhere(l.fs, d, x, l.g.frag, Times(l.fs, x) + 4 * e, Write32(w));
    var d' := Put(d, Times(l.fs, x) + 4 * e, Write32(w));
    forall j | 0 <= j < l.entries ensures Words(l, d', x)[j] == Words(l, d, x)[e := w][j] {
      WordAfter(l, d, d', x, e, w, j);
    }
    assert Words(l, d', x) == Words(l, d, x)[e := w];
  }

  /** On the loaded tree, storing a pointer replaces one child. */
  lemma EntryStored(l: Layout, d: seq<Byte>, d': seq<Byte>, x: nat, level: nat, e: nat, w: nat, free: iset<nat>)
    requires ValidLayout(l) && OnDisk(l, d) && OnDisk(l, d') && e < l.entries && 0 < level
    requires x != 0 && Sound(l, Load(l, d, x, level), level)
    requires Exclusive(free, Owned(l.g.frag, Load(l, d, x, level), false))
    requires x + l.g.frag <= l.fragCount && Words(l, d', x) == Words(l, d, x)[e := w]
    requires SameElsewhere(l.fs, d, d', x, l.g.frag)
    ensures var t := Load(l, d, x, level);
      Load(l, d', x, level) == t.(kids := t.kids[e := Load(l, d', w, level - 1)])
  {
    var t := Load(l, d, x, level);
    var ws := Words(l, d, x);
    forall j | 0 <= j < l.entries && j != e ensures Load(l, d', ws[j], level - 1) == t.kids[j] {
      forall y | Owned(l.g.frag, t.kids[j], false)[y] > 0 ensures SameFrag(l.fs, d, d', y) {
        OwnedPair(l.g.frag, t, j, j, false, y);
        assert Holders(free, Owned(l.g.frag, t, false), y) <= 1;
      }
      LoadFrame(l, d, d', ws[j], level - 1);
    }
    assert Load(l, d', x, level).kids == t.kids[e := Load(l, d', w, level - 1)];
  }

  /** When only one child's index blocks and free fragments changed, only that child loads differently. */
  lemma ParentFollows(l: Layout, d: seq<Byte>, d': seq<Byte>, x: nat, level: nat, e: nat, free: iset<nat>)
    requires ValidLayout(l) && OnDisk(l, d) && OnDisk(l, d') && e < l.entries && 0 < level
    requires x != 0 && Sound(l, Load(l, d, x, level), level) && x + l.g.frag <= l.fragCount
    requires var t := Load(l, d, x, level);
      && Exclusive(free, Owned(l.g.frag, t, false))
      && Untouched(l.fs, free, Owned(l.g.frag, t.kids[e], false), d, d')
    ensures var t := Load(l, d, x, level);
      && Words(l, d', x) == Words(l, d, x)
      && Load(l, d', x, level) == t.(kids := t.kids[e := Load(l, d', Words(l, d, x)[e], level - 1)])
  {
    var t := Load(l, d, x, level);
    RootFollows(l, d, d', x, level, e, free);
    var ws := Words(l, d, x);
    forall j | 0 <= j < l.entries && j != e ensures Load(l, d', ws[j], level - 1) == t.kids[j] {
      KidFollows(l, d, d', x, level, e, j, free);
    }
    assert Load(l, d', x, level).kids == t.kids[e := Load(l, d', ws[e], level - 1)];
  }

  lemma RootFollows(l: Layout, d: seq<Byte>, d': seq<Byte>, x: nat, level: nat, e: nat, free: iset<nat>)
    requires ValidLayout(l) && OnDisk(l, d) && OnDisk(l, d') && e < l.entries && 0 < level
    requires x != 0 && Sound(l, Load(l, d, x, level), level) && x + l.g.frag <= l.fragCount
    requires var t := Load(l, d, x, level);
      && Exclusive(free, Owned(l.g.frag, t, false))
      && Untouched(l.fs, free, Owned(l.g.frag, t.kids[e], false), d, d')
    ensures Words(l, d', x) == Words(l, d, x)
  {
    var f, t := l.g.frag, Load(l, d, x, level);
    forall y | x <= y < x + f ensures SameFrag(l.fs, d, d', y) {
      OwnedPair(f, t, e, e, false, y);
      assert Holders(free, Owned(f, t, false), y) <= 1 && Holders(free, Owned(f, t.kids[e], false), y) == 0;
    }
    WordsFrame(l, d, d', x);
  }

  lemma KidFollows(l: Layout, d: seq<Byte>, d': seq<Byte>, x: nat, level: nat, e: nat, j: nat, free: iset<nat>)
    requires ValidLayout(l) && OnDisk(l, d) && OnDisk(l, d') && e < l.entries && 0 < level && j < l.entries && j != e
    requires x != 0 && Sound(l, Load(l, d, x, level), level) && x + l.g.frag <= l.fragCount
    requires var t := Load(l, d, x, level);
      && Exclusive(free, Owned(l.g.frag, t, false))
      && Untouched(l.fs, free, Owned(l.g.frag, t.kids[e], false), d, d')
    ensures Load(l, d', Words(l, d, x)[j], level - 1) == Load(l, d, x, level).kids[j]
  {
    var f, t := l.g.frag, Load(l, d, x, level);
    forall y | Owned(f, t.kids[j], false)[y] > 0 ensures SameFrag(l.fs, d, d', y) {
      OwnedPair(f, t, j, e, false, y);
      assert Holders(free, Owned(f, t, false), y) <= 1 && Holders(free, Owned(f, t.kids[e], false), y) == 0;
    }
    LoadFrame(l, d, d', Words(l, d, x)[j], level - 1);
  }

  method WriteEntry(v: Volume, x: nat, e: nat, w: nat)
    requires v.Valid() && BlockOk(v.Lay(), x) && e < v.entries && w < 0x1_0000_0000
    modifies v`data
    ensures v.Valid() && x + v.g.frag <= v.fragCount
    ensures Words(v.Lay(), v.data, x) == Words(v.Lay(), old(v.data), x)[e := w]
    ensures SameElsewhere(v.fsize, old(v.data), v.data, x, v.g.frag)
  {
    InsideSlice(v.Lay(), x, v.g.frag);
    EntryWritten(v.Lay(), v.data, x, e, w);
    var base := Mul(v.fsize, x);
    v.data := Put(v.data, base + 4 * e, Write32(w));
  }

  /** A freshly zeroed index block. */
  lemma ZeroedBlank(l: Layout, d: seq<Byte>, x: nat, level: nat)
    requires ValidLayout(l) && OnDisk(l, d) && BlockOk(l, x) && 0 < level && x + l.g.frag <= l.fragCount
    ensures Times(l.fs, x) + Times(l.fs, l.g.frag) <= |d|
    ensures var d' := Put(d, Times(l.fs, x), Zeros(Times(l.fs, l.g.frag)));
      && Load(l, d', x, level) == Blank(l.entries, x)
      && SameElsewhere(l.fs, d, d', x, l.g.frag)
  {
    RunFits(l, x, l.g.frag);
    var d' := Put(d, Times(l.fs, x), Zeros(Times(l.fs, l.g.frag)));
    var ws := Words(l, d', x);
    forall i | 0 <= i < l.entries ensures ws[i] == 0 {
      var p := Times(l.fs, x) + 4 * i;
      assert d'[p] == 0 && d'[p + 1] == 0 && d'[p + 2] == 0 && d'[p + 3] == 0;
    }
    assert Load(l, d', x, level).kids == Blank(l.entries, x).kids;
    PutElsewhere(l.fs, d, x, l.g.frag, Times(l.fs, x), Zeros(Times(l.fs, l.g.frag)));
  }

  method AllocateZeroedBlock(v: Volume, preferred: nat) returns (r: Grant)
    requires v.Valid()
    modifies v
    ensures v.Valid()
    ensures r.Denied? ==> v.Refusal(r.error, {v.g.frag})
    ensures old(v.AffordsBlocks(1)) ==> r.Got?
    ensures r.Got? ==> v.SpentBlocks(1)
    ensures r.Got? ==>
      && BlockOk(v.Lay(), r.frag) && r.frag + v.g.frag <= v.fragCount
      && TakenFrom(old(v.Free()), v.Free(), r.frag, v.g.frag)
      && (forall level: nat | 0 < level :: Load(v.Lay(), v.data, r.frag, level) == Blank(v.entries, r.frag))
      && SameElsewhere(v.fsize, old(v.data), v.data, r.frag, v.g.frag)
  {
    r := v.AllocateFrags(preferred, v.g.frag);
    if r.Got? {
      InsideSlice(v.Lay(), r.frag, v.g.frag);
      forall level: nat | 0 < level
        ensures Times(v.fsize, r.frag) + Times(v.fsize, v.g.frag) <= |v.data|
        ensures Load(v.Lay(), Put(v.data, Times(v.fsize, r.frag), Zeros(Times(v.fsize, v.g.frag))), r.frag, level)
             == Blank(v.entries, r.frag)
      {
        ZeroedBlank(v.Lay(), v.data, r.frag, level);
      }
      ZeroedBlank(v.Lay(), v.data, r.frag, 1);
      var base := Mul(v.fsize, r.frag);
      var size := Mul(v.fsize, v.g.frag);
      v.data := Put(v.data, base, Zeros(size));
    }
  }

  // ----- storing a pointer, with the index blocks it lacks -----

  /** The disk now holds the grafted tree; the fresh index blocks came from the free map, and only they
      and the tree's own index blocks were written. */
  ghost predicate Stored(l: Layout, d: seq<Byte>, d': seq<Byte>, free: iset<nat>, free': iset<nat>,
      x: nat, level: nat, idx: nat, leaf: nat, extra: seq<nat>)
    requires ValidLayout(l) && OnDisk(l, d) && idx < Span(l.entries, level)
  {
    var t := Load(l, d, x, level);
    && OnDisk(l, d')
    && |extra| == Missing(l.entries, t, level, idx)
    && (forall f | f in extra :: BlockOk(l, f))
    && Load(l, d', x, level) == Graft(l.entries, t, level, idx, leaf, extra)
    && Conserved(free, multiset{}, free', Blocks(l.g.frag, extra))
    && Untouched(l.fs, free, Owned(l.g.frag, t, false), d, d')
  }

  /** Index block `x` is on disk, sound, and shares no fragment with itself or the free map. */
  ghost predicate Rooted(l: Layout, d: seq<Byte>, free: iset<nat>, x: nat, level: nat)
    requires ValidLayout(l) && OnDisk(l, d)
  {
    && x != 0 && 0 < level && x + l.g.frag <= l.fragCount
    && Sound(l, Load(l, d, x, level), level)
    && Exclusive(free, Owned(l.g.frag, Load(l, d, x, level), false))
  }

  lemma RootedFits(l: Layout, d: seq<Byte>, free: iset<nat>, x: nat, level: nat)
    requires ValidLayout(l) && OnDisk(l, d) && x != 0 && 0 < level && Sound(l, Load(l, d, x, level), level)
    requires Exclusive(free, Owned(l.g.frag, Load(l, d, x, level), false))
    ensures Rooted(l, d, free, x, level)
  {
    InsideSlice(l, x, l.g.frag);
  }

  /** A child of a rooted block is rooted. */
  lemma KidRooted(l: Layout, d: seq<Byte>, free: iset<nat>, x: nat, level: nat, e: nat)
    requires ValidLayout(l) && OnDisk(l, d) && Rooted(l, d, free, x, level) && 1 < level && e < l.entries
    requires Words(l, d, x)[e] != 0
    ensures Rooted(l, d, free, Words(l, d, x)[e], level - 1)
  {
    var t := Load(l, d, x, level);
    forall y: nat ensures Holders(free, Owned(l.g.frag, t.kids[e], false), y) <= 1 {
      OwnedPair(l.g.frag, t, e, e, false, y);
      assert Holders(free, Owned(l.g.frag, t, false), y) <= 1;
    }
    RootedFits(l, d, free, Words(l, d, x)[e], level - 1);
  }

  /** Storing in the last index block. */
  /** Grafting in the last index block stores the leaf in its slot. */
  lemma LastGraft(l: Layout, d: seq<Byte>, t: Tree, idx: nat, leaf: nat)
    requires ValidLayout(l) && OnDisk(l, d) && t.Index? && |t.kids| == l.entries && leaf != 0
    requires idx < Span(l.entries, 1) && idx < l.entries && Slot(l.entries, 1, idx) == idx
    ensures Missing(l.entries, t, 1, idx) == 0
    ensures Graft(l.entries, t, 1, idx, leaf, []) == t.(kids := t.kids[idx := Load(l, d, leaf, 0)])
  {
    assert Load(l, d, leaf, 0) == Leaf(leaf);
  }

  lemma StoredLast(l: Layout, d: seq<Byte>, d': seq<Byte>, free: iset<nat>, x: nat, idx: nat, leaf: nat)
    requires ValidLayout(l) && OnDisk(l, d) && OnDisk(l, d') && Rooted(l, d, free, x, 1) && idx < Span(l.entries, 1)
    requires idx < l.entries && Slot(l.entries, 1, idx) == idx && leaf != 0
    requires Words(l, d', x) == Words(l, d, x)[idx := leaf] && SameElsewhere(l.fs, d, d', x, l.g.frag)
    ensures Stored(l, d, d', free, free, x, 1, idx, leaf, [])
  {
    EntryStored(l, d, d', x, 1, idx, leaf, free);
    var t := Load(l, d, x, 1);
    LastGraft(l, d', t, idx, leaf);
    forall y: nat | Holders(free, Owned(l.g.frag, t, false), y) == 0 ensures SameFrag(l.fs, d, d', y) {
      OwnedPair(l.g.frag, t, idx, idx, false, y);
    }
  }

  lemma LastSlot(n: nat, idx: nat)
    requires 0 < n && idx < Span(n, 1)
    ensures idx < n && Slot(n, 1, idx) == idx
  {
    OneTimes(n);
    OneTimes(idx);
    QuotUnique(1, idx, 0);
  }

  lemma {:induction false} OneTimes(k: nat)
    ensures Times(1, k) == k
  {
    if k > 0 { OneTimes(k - 1); }
  }

  /** Storing below an existing child. */
  lemma StoredBelow(l: Layout, d: seq<Byte>, d': seq<Byte>, free: iset<nat>, free': iset<nat>,
      x: nat, level: nat, idx: nat, leaf: nat, extra: seq<nat>)
    requires ValidLayout(l) && OnDisk(l, d) && Rooted(l, d, free, x, level) && 1 < level && idx < Span(l.entries, level)
    requires Stored(l, d, d', free, free', Words(l, d, x)[Slot(l.entries, level, idx)], level - 1, Rest(l.entries, level, idx), leaf, extra)
    ensures Stored(l, d, d', free, free', x, level, idx, leaf, extra)
  {
    var t := Load(l, d, x, level);
    var e := Slot(l.entries, level, idx);
    ParentFollows(l, d, d', x, level, e, free);
    forall y: nat | Holders(free, Owned(l.g.frag, t, false), y) == 0 ensures SameFrag(l.fs, d, d', y) {
      OwnedPair(l.g.frag, t, e, e, false, y);
      assert Holders(free, Owned(l.g.frag, t.kids[e], false), y) == 0;
    }
  }

  /** A blank child was added in place of a hole. */
  ghost predicate BlankAdded(l: Layout, d: seq<Byte>, d': seq<Byte>, free: iset<nat>, free': iset<nat>,
      x: nat, level: nat, e: nat, b: nat)
    requires ValidLayout(l) && OnDisk(l, d) && OnDisk(l, d') && Rooted(l, d, free, x, level) && 1 < level && e < l.entries
  {
    var t := Load(l, d, x, level);
    && t.kids[e].Hole? && BlockOk(l, b)
    && TakenFrom(free, free', b, l.g.frag)
    && Load(l, d', x, level) == t.(kids := t.kids[e := Blank(l.entries, b)])
    && Words(l, d', x)[e] == b
    && forall y: nat | !(x <= y < x + l.g.frag) && !(b <= y < b + l.g.frag) :: SameFrag(l.fs, d, d', y)
  }

  lemma BlankAddedOwned(l: Layout, d: seq<Byte>, d': seq<Byte>, free: iset<nat>, free': iset<nat>,
      x: nat, level: nat, e: nat, b: nat)
    requires ValidLayout(l) && OnDisk(l, d) && OnDisk(l, d') && Rooted(l, d, free, x, level) && 1 < level && e < l.entries
    requires BlankAdded(l, d, d', free, free', x, level, e, b)
    ensures Owned(l.g.frag, Load(l, d', x, level), false) == Owned(l.g.frag, Load(l, d, x, level), false) + Run(b, l.g.frag)
    ensures Rooted(l, d', free', x, level)
  {
    var t, f := Load(l, d, x, level), l.g.frag;
    OwnedUpdate(f, t, e, Blank(l.entries, b), false);
    BlankOwned(f, l.entries, b, false);
    BlankSound(l, b, level - 1);
    TakeConserves(free, free', Owned(f, t, false), b, f);
    forall y: nat ensures Holders(free', Owned(f, t, false) + Run(b, f), y) <= 1 {
      assert Holders(free, Owned(f, t, false), y) <= 1;
    }
  }

  lemma HoleMissing(l: Layout, d: seq<Byte>, level: nat, idx: nat)
    requires ValidLayout(l) && OnDisk(l, d) && idx < Span(l.entries, level)
    ensures Load(l, d, 0, level) == Hole && Missing(l.entries, Hole, level, idx) == level
  {
  }

  lemma BlankMissing(n: nat, b: nat, level: nat, idx: nat)
    requires 0 < n && 0 < level && idx < Span(n, level)
    ensures Missing(n, Blank(n, b), level, idx) == level - 1
  {
    assert Missing(n, Hole, level - 1, Rest(n, level, idx)) == level - 1;
  }

  lemma GraftInBlank(n: nat, t: Tree, level: nat, idx: nat, leaf: nat, b: nat, extra: seq<nat>)
    requires 0 < n && 1 < level && idx < Span(n, level) && t.Index? && |t.kids| == n
    requires t.kids[Slot(n, level, idx)].Hole?
    requires var t1 := t.(kids := t.kids[Slot(n, level, idx) := Blank(n, b)]); |extra| == Missing(n, t1, level, idx)
    ensures |[b] + extra| == Missing(n, t, level, idx)
    ensures Graft(n, t.(kids := t.kids[Slot(n, level, idx) := Blank(n, b)]), level, idx, leaf, extra)
         == Graft(n, t, level, idx, leaf, [b] + extra)
  {
    var e, r := Slot(n, level, idx), Rest(n, level, idx);
    assert ([b] + extra)[1..] == extra;
    BlankMissing(n, b, level - 1, r);
    assert Graft(n, Hole, level - 1, r, leaf, [b] + extra) == Graft(n, Blank(n, b), level - 1, r, leaf, extra);
  }

  lemma BlockTaken(free: iset<nat>, free1: iset<nat>, free': iset<nat>, b: nat, frag: nat, extra: seq<nat>)
    requires TakenFrom(free, free1, b, frag) && Conserved(free1, multiset{}, free', Blocks(frag, extra))
    ensures Conserved(free, multiset{}, free', Blocks(frag, [b] + extra))
  {
    assert ([b] + extra)[1..] == extra;
    TakeConserves(free, free1, multiset{}, b, frag);
    forall y: nat ensures Holders(free', Blocks(frag, [b] + extra), y) == Holders(free, multiset{}, y) {
      assert Holders(free', Blocks(frag, extra), y) == Holders(free1, multiset{}, y);
      assert Holders(free1, multiset{} + Run(b, frag), y) == Holders(free, multiset{}, y);
    }
  }

  lemma BlankUntouched(l: Layout, d: seq<Byte>, d1: seq<Byte>, d': seq<Byte>, free: iset<nat>, free1: iset<nat>,
      x: nat, level: nat, e: nat, b: nat)
    requires ValidLayout(l) && OnDisk(l, d) && OnDisk(l, d1) && Rooted(l, d, free, x, level) && 1 < level && e < l.entries
    requires BlankAdded(l, d, d1, free, free1, x, level, e, b)
    requires Untouched(l.fs, free1, Owned(l.g.frag, Load(l, d1, x, level), false), d1, d')
    ensures Untouched(l.fs, free, Owned(l.g.frag, Load(l, d, x, level), false), d, d')
  {
    hide Owned, Words;
    var t, f := Load(l, d, x, level), l.g.frag;
    BlankAddedOwned(l, d, d1, free, free1, x, level, e, b);
    forall y: nat | Holders(free, Owned(f, t, false), y) == 0 ensures SameFrag(l.fs, d, d', y) {
      OwnedPair(f, t, e, e, false, y);
      assert SameFrag(l.fs, d, d1, y);
      assert Holders(free1, Owned(f, t, false) + Run(b, f), y) == 0;
    }
  }

  /** Storing below a child that had to be added first. */
  lemma StoredInBlank(l: Layout, d: seq<Byte>, d1: seq<Byte>, d': seq<Byte>, free: iset<nat>, free1: iset<nat>, free': iset<nat>,
      x: nat, level: nat, idx: nat, leaf: nat, b: nat, extra: seq<nat>)
    requires ValidLayout(l) && OnDisk(l, d) && OnDisk(l, d1) && Rooted(l, d, free, x, level) && 1 < level && idx < Span(l.entries, level)
    requires BlankAdded(l, d, d1, free, free1, x, level, Slot(l.entries, level, idx), b)
    requires Stored(l, d1, d', free1, free', x, level, idx, leaf, extra)
    ensures Stored(l, d, d', free, free', x, level, idx, leaf, [b] + extra)
  {
    var e := Slot(l.entries, level, idx);
    GraftInBlank(l.entries, Load(l, d, x, level), level, idx, leaf, b, extra);
    BlockTaken(free, free1, free', b, l.g.frag, extra);
    BlankUntouched(l, d, d1, d', free, free1, x, level, e, b);
  }

  /** A block taken from the free map overlaps nothing the tree holds. */
  lemma FreshApart(l: Layout, d: seq<Byte>, free: iset<nat>, free1: iset<nat>, x: nat, level: nat, b: nat, y: nat)
    requires ValidLayout(l) && OnDisk(l, d) && Rooted(l, d, free, x, level) && TakenFrom(free, free1, b, l.g.frag)
    requires Owned(l.g.frag, Load(l, d, x, level), false)[y] > 0
    ensures y < b || b + l.g.frag <= y
  {
    assert Holders(free, Owned(l.g.frag, Load(l, d, x, level), false), y) <= 1;
  }

  /** Zeroing a block from the free map leaves the tree as it was. */
  lemma ZeroedElsewhere(l: Layout, d: seq<Byte>, d1: seq<Byte>, free: iset<nat>, free1: iset<nat>, x: nat, level: nat, b: nat)
    requires ValidLayout(l) && OnDisk(l, d) && OnDisk(l, d1) && Rooted(l, d, free, x, level)
    requires TakenFrom(free, free1, b, l.g.frag) && SameElsewhere(l.fs, d, d1, b, l.g.frag)
    ensures Rooted(l, d1, free1, x, level) && Load(l, d1, x, level) == Load(l, d, x, level)
    ensures Words(l, d1, x) == Words(l, d, x)
    ensures b + l.g.frag <= x || x + l.g.frag <= b
  {
    var t, f := Load(l, d, x, level), l.g.frag;
    OwnedIndex(f, t, false);
    forall y | Owned(f, t, false)[y] > 0 ensures SameFrag(l.fs, d, d1, y) {
      FreshApart(l, d, free, free1, x, level, b, y);
    }
    LoadFrame(l, d, d1, x, level);
    WordsFrame(l, d, d1, x);
    forall y: nat ensures Holders(free1, Owned(f, t, false), y) <= 1 {
      assert Holders(free, Owned(f, t, false), y) <= 1;
    }
    assert Owned(f, t, false)[x] > 0;
    FreshApart(l, d, free, free1, x, level, b, x);
    assert b + f <= x || x + f <= b by {
      if x < b < x + f {
        assert Owned(f, t, false)[b] > 0;
        FreshApart(l, d, free, free1, x, level, b, b);
      }
    }
  }

  lemma BlankLinked(l: Layout, d: seq<Byte>, d1: seq<Byte>, d2: seq<Byte>, free: iset<nat>, free1: iset<nat>,
      x: nat, level: nat, e: nat, b: nat)
    requires ValidLayout(l) && OnDisk(l, d) && OnDisk(l, d1) && OnDisk(l, d2) && Rooted(l, d, free, x, level) && 1 < level
    requires e < l.entries && Words(l, d, x)[e] == 0 && BlockOk(l, b) && TakenFrom(free, free1, b, l.g.frag)
    requires SameElsewhere(l.fs, d, d1, b, l.g.frag) && Load(l, d1, b, level - 1) == Blank(l.entries, b)
    requires Words(l, d2, x) == Words(l, d1, x)[e := b] && SameElsewhere(l.fs, d1, d2, x, l.g.frag)
    ensures BlankAdded(l, d, d2, free, free1, x, level, e, b)
  {
    ZeroedElsewhere(l, d, d1, free, free1, x, level, b);
    EntryStored(l, d1, d2, x, level, e, b, free1);
    BlankKept(l, d1, d2, x, level - 1, b);
    forall y: nat | !(x <= y < x + l.g.frag) && !(b <= y < b + l.g.frag) ensures SameFrag(l.fs, d, d2, y) {
      assert SameFrag(l.fs, d, d1, y) && SameFrag(l.fs, d1, d2, y);
    }
  }

  lemma BlankKept(l: Layout, d: seq<Byte>, d': seq<Byte>, x: nat, level: nat, b: nat)
    requires ValidLayout(l) && OnDisk(l, d) && OnDisk(l, d') && BlockOk(l, b) && 0 < level
    requires Load(l, d, b, level) == Blank(l.entries, b) && SameElsewhere(l.fs, d, d', x, l.g.frag)
    requires b + l.g.frag <= x || x + l.g.frag <= b
    ensures Load(l, d', b, level) == Blank(l.entries, b)
  {
    BlankOwned(l.g.frag, l.entries, b, false);
    BlankSound(l, b, level);
    LoadFrame(l, d, d', b, level);
  }

  method AddBlankChild(v: Volume, x: nat, level: nat, e: nat, preferred: nat) returns (r: Grant)
    requires v.Valid() && Rooted(v.Lay(), v.data, v.Free(), x, level) && 1 < level && e < v.entries
    requires Words(v.Lay(), v.data, x)[e] == 0
    modifies v
    ensures v.Valid()
    ensures r.Denied? ==> v.Refusal(r.error, {v.g.frag})
    ensures old(v.AffordsBlocks(1)) ==> r.Got?
    ensures r.Got? ==> v.SpentBlocks(1)
    ensures r.Got? ==> BlankAdded(v.Lay(), old(v.data), v.data, old(v.Free()), v.Free(), x, level, e, r.frag)
  {
    r := AllocateZeroedBlock(v, preferred);
    if r.Got? {
      ghost var d1, free1 := v.data, v.Free();
      WriteEntry(v, x, e, r.frag);
      assert Load(v.Lay(), d1, r.frag, level - 1) == Blank(v.entries, r.frag);
      BlankLinked(v.Lay(), old(v.data), d1, v.data, old(v.Free()), free1, x, level, e, r.frag);
    }
  }

  method ComputeSpan(n: nat, level: nat) returns (span: nat)
    requires 0 < n && 0 < level
    ensures span == Span(n, level - 1)
  {
    span := 1;
    for i := 1 to level
      invariant span == Span(n, i - 1)
    {
      span := Mul(span, n);
    }
  }

  lemma BlankRooted(l: Layout, d: seq<Byte>, d1: seq<Byte>, free: iset<nat>, free1: iset<nat>, x: nat, level: nat, e: nat, b: nat)
    requires ValidLayout(l) && OnDisk(l, d) && OnDisk(l, d1) && Rooted(l, d, free, x, level) && 1 < level && e < l.entries
    requires BlankAdded(l, d, d1, free, free1, x, level, e, b)
    ensures Rooted(l, d1, free1, b, level - 1)
  {
    BlankAddedOwned(l, d, d1, free, free1, x, level, e, b);
    KidRooted(l, d1, free1, x, level, e);
  }

  lemma StoredThroughBlank(l: Layout, d: seq<Byte>, d1: seq<Byte>, d': seq<Byte>, free: iset<nat>, free1: iset<nat>, free': iset<nat>,
      x: nat, level: nat, idx: nat, leaf: nat, b: nat, extra: seq<nat>)
    requires ValidLayout(l) && OnDisk(l, d) && OnDisk(l, d1) && Rooted(l, d, free, x, level) && 1 < level && idx < Span(l.entries, level)
    requires BlankAdded(l, d, d1, free, free1, x, level, Slot(l.entries, level, idx), b)
    requires Stored(l, d1, d', free1, free', b, level - 1, Rest(l.entries, level, idx), leaf, extra)
    ensures Stored(l, d, d', free, free', x, level, idx, leaf, [b] + extra)
    ensures |Blocks(l.g.frag, [b] + extra)| == l.g.frag + |Blocks(l.g.frag, extra)|
  {
    BlankAddedOwned(l, d, d1, free, free1, x, level, Slot(l.entries, level, idx), b);
    StoredBelow(l, d1, d', free1, free', x, level, idx, leaf, extra);
    StoredInBlank(l, d, d1, d', free, free1, free', x, level, idx, leaf, b, extra);
    assert ([b] + extra)[1..] == extra;
  }

  /** How many index blocks the path from pointer `x` to entry `idx` lacks. */
  ghost function Lacks(v: Volume, x: nat, level: nat, idx: nat): nat
    requires v.Valid() && idx < Span(v.entries, level)
    reads v
  {
    Missing(v.entries, Load(v.Lay(), v.data, x, level), level, idx)
  }

  /** How many index blocks are lacking below an index block. */
  lemma MissingBelow(l: Layout, d: seq<Byte>, free: iset<nat>, x: nat, level: nat, idx: nat)
    requires ValidLayout(l) && OnDisk(l, d) && Rooted(l, d, free, x, level) && idx < Span(l.entries, level)
    ensures level == 1 ==> Missing(l.entries, Load(l, d, x, level), level, idx) == 0
    ensures 1 < level ==>
      var next, rest := Words(l, d, x)[Slot(l.entries, level, idx)], Rest(l.entries, level, idx);
      && Missing(l.entries, Load(l, d, x, level), level, idx) == Missing(l.entries, Load(l, d, next, level - 1), level - 1, rest)
      && (next == 0 ==> Missing(l.entries, Load(l, d, x, level), level, idx) == level - 1)
  {
    hide Words, Exclusive, Owned;
  }

  lemma BlankAddedMissing(l: Layout, d: seq<Byte>, d1: seq<Byte>, free: iset<nat>, free1: iset<nat>, x: nat, level: nat, e: nat,
      b: nat, rest: nat)
    requires ValidLayout(l) && OnDisk(l, d) && OnDisk(l, d1) && Rooted(l, d, free, x, level) && 1 < level && e < l.entries
    requires BlankAdded(l, d, d1, free, free1, x, level, e, b) && rest < Span(l.entries, level - 1)
    ensures Missing(l.entries, Load(l, d1, b, level - 1), level - 1, rest) == level - 2
  {
    hide Words, Exclusive, Owned, Missing;
    assert Load(l, d1, x, level).kids[e] == Blank(l.entries, b);
    KidLoads(l, d1, x, level, e);
    BlankMissing(l.entries, b, level - 1, rest);
  }

  lemma KidLoads(l: Layout, d: seq<Byte>, x: nat, level: nat, e: nat)
    requires ValidLayout(l) && OnDisk(l, d) && x != 0 && 0 < level && x + l.g.frag <= l.fragCount && e < l.entries
    ensures Load(l, d, x, level).Index? && |Load(l, d, x, level).kids| == l.entries
    ensures Load(l, d, x, level).kids[e] == Load(l, d, Words(l, d, x)[e], level - 1)
  {
    hide Words;
  }

  /** `nextufs__set_indirect_data_block` below an allocated index block. */
  method SetIndirect(v: Volume, x: nat, level: nat, idx: nat, leaf: nat, preferred: nat, metadata: nat)
    returns (r: Option<Errno>, metadata': nat, ghost extra: seq<nat>)
    requires v.Valid() && idx < Span(v.entries, level) && 0 < leaf < 0x1_0000_0000
    requires 0 < level ==> Rooted(v.Lay(), v.data, v.Free(), x, level)
    modifies v
    ensures v.Valid()
    ensures level == 0 ==> r == Some(Einval)
    ensures 0 < level && r.Some? ==> v.Refusal(r.value, IfAny(v.g.frag, old(Lacks(v, x, level, idx))))
    ensures 0 < level && old(v.AffordsBlocks(Lacks(v, x, level, idx))) ==> r.None?
    ensures r.None? ==> v.SpentBlocks(|extra|)
    ensures r.None? ==>
      && Stored(v.Lay(), old(v.data), v.data, old(v.Free()), v.Free(), x, level, idx, leaf, extra)
      && metadata' == metadata + |Blocks(v.g.frag, extra)|
  {
    if level == 0 {
      return Some(Einval), metadata, [];
    }
    r, metadata', extra := SetBelow(v, x, level, idx, leaf, preferred, metadata);
  }

  method SetBelow(v: Volume, x: nat, level: nat, idx: nat, leaf: nat, preferred: nat, metadata: nat)
    returns (r: Option<Errno>, metadata': nat, ghost extra: seq<nat>)
    requires v.Valid() && 0 < level && idx < Span(v.entries, level) && 0 < leaf < 0x1_0000_0000
    requires Rooted(v.Lay(), v.data, v.Free(), x, level)
    modifies v
    ensures v.Valid()
    ensures r.Some? ==> v.Refusal(r.value, IfAny(v.g.frag, old(Lacks(v, x, level, idx))))
    ensures old(v.AffordsBlocks(Lacks(v, x, level, idx))) ==> r.None?
    ensures r.None? ==> v.SpentBlocks(|extra|)
    ensures r.None? ==>
      && Stored(v.Lay(), old(v.data), v.data, old(v.Free()), v.Free(), x, level, idx, leaf, extra)
      && metadata' == metadata + |Blocks(v.g.frag, extra)|
    decreases level, 1
  {
    hide CountsValid, IsFree, Load, Owned, Exclusive, Graft, Missing, SameFrag, Untouched, Conserved, Words;
    MissingBelow(v.Lay(), v.data, v.Free(), x, level, idx);
    if level == 1 {
      SetLast(v, x, idx, leaf);
      return None, metadata, [];
    }
    var span := ComputeSpan(v.entries, level);
    var e, rest := DivMod(span, idx);
    assert e == Slot(v.entries, level, idx) && rest == Rest(v.entries, level, idx);
    var next := Words(v.Lay(), v.data, x)[e];
    if next == 0 {
      r, metadata', extra := SetInHole(v, x, level, idx, e, rest, leaf, preferred, metadata);
      return;
    }
    KidRooted(v.Lay(), v.data, v.Free(), x, level, e);
    r, metadata', extra := SetBelow(v, next, level - 1, rest, leaf, preferred, metadata);
    if r.None? {
      StoredBelow(v.Lay(), old(v.data), v.data, old(v.Free()), v.Free(), x, level, idx, leaf, extra);
    }
  }

  method SetLast(v: Volume, x: nat, idx: nat, leaf: nat)
    requires v.Valid() && idx < Span(v.entries, 1) && 0 < leaf < 0x1_0000_0000
    requires Rooted(v.Lay(), v.data, v.Free(), x, 1)
    modifies v`data
    ensures v.Valid() && Stored(v.Lay(), old(v.data), v.data, old(v.Free()), v.Free(), x, 1, idx, leaf, [])
  {
    LastSlot(v.entries, idx);
    WriteEntry(v, x, idx, leaf);
    StoredLast(v.Lay(), old(v.data), v.data, v.Free(), x, idx, leaf);
  }

  /** The branch that first allocates the child index block. */
  method SetInHole(v: Volume, x: nat, level: nat, ghost idx: nat, e: nat, rest: nat, leaf: nat, preferred: nat, metadata: nat)
    returns (r: Option<Errno>, metadata': nat, ghost extra: seq<nat>)
    requires v.Valid() && 1 < level && idx < Span(v.entries, level) && 0 < leaf < 0x1_0000_0000
    requires Rooted(v.Lay(), v.data, v.Free(), x, level)
    requires e == Slot(v.entries, level, idx) && rest == Rest(v.entries, level, idx) && Words(v.Lay(), v.data, x)[e] == 0
    modifies v
    ensures v.Valid()
    ensures r.Some? ==> v.Refusal(r.value, IfAny(v.g.frag, old(Lacks(v, x, level, idx))))
    ensures old(v.AffordsBlocks(Lacks(v, x, level, idx))) ==> r.None?
    ensures r.None? ==> v.SpentBlocks(|extra|)
    ensures r.None? ==>
      && Stored(v.Lay(), old(v.data), v.data, old(v.Free()), v.Free(), x, level, idx, leaf, extra)
      && metadata' == metadata + |Blocks(v.g.frag, extra)|
    decreases level, 0
  {
    hide CountsValid, IsFree, Load, Owned, Exclusive, Graft, Missing, SameFrag, Untouched, Conserved, Words, Stored, Rooted,
      BlankAdded;
    MissingBelow(v.Lay(), v.data, v.Free(), x, level, idx);
    TimesAdd(v.g.frag, 1, level - 2);
    var grant := AddBlankChild(v, x, level, e, preferred);
    if grant.Denied? {
      return Some(grant.error), metadata, [];
    }
    ghost var d1, free1 := v.data, v.Free();
    BlankRooted(v.Lay(), old(v.data), d1, old(v.Free()), free1, x, level, e, grant.frag);
    BlankAddedMissing(v.Lay(), old(v.data), d1, old(v.Free()), free1, x, level, e, grant.frag, rest);
    r, metadata', extra := SetBelow(v, grant.frag, level - 1, rest, leaf, preferred, metadata + v.g.frag);
    if r.Some? {
      v.RefusalMore(r.value, IfAny(v.g.frag, level - 2), {v.g.frag});
      return;
    }
    if r.None? {
      StoredThroughBlank(v.Lay(), old(v.data), d1, v.data, old(v.Free()), free1, v.Free(), x, level, idx, leaf, grant.frag, extra);
      extra := [grant.frag] + extra;
    }
  }

  // ----- the root of an indirect tree -----

  /** `Stored`, for a root pointer that may have been a hole: it was `t`, and is now `x`. */
  ghost predicate StoredAt(l: Layout, d: seq<Byte>, d': seq<Byte>, free: iset<nat>, free': iset<nat>,
      t: Tree, x: nat, level: nat, idx: nat, leaf: nat, extra: seq<nat>)
    requires ValidLayout(l) && idx < Span(l.entries, level)
  {
    && OnDisk(l, d')
    && |extra| == Missing(l.entries, t, level, idx)
    && (forall f | f in extra :: BlockOk(l, f))
    && Load(l, d', x, level) == Graft(l.entries, t, level, idx, leaf, extra)
    && Conserved(free, multiset{}, free', Blocks(l.g.frag, extra))
    && Untouched(l.fs, free, Owned(l.g.frag, t, false), d, d')
  }

  lemma NewRoot(l: Layout, d: seq<Byte>, d1: seq<Byte>, free: iset<nat>, free1: iset<nat>, b: nat, level: nat)
    requires ValidLayout(l) && OnDisk(l, d) && OnDisk(l, d1) && BlockOk(l, b) && 0 < level && b + l.g.frag <= l.fragCount
    requires TakenFrom(free, free1, b, l.g.frag) && Load(l, d1, b, level) == Blank(l.entries, b)
    ensures Rooted(l, d1, free1, b, level)
  {
    BlankSound(l, b, level);
    BlankOwned(l.g.frag, l.entries, b, false);
  }

  lemma StoredInNewRoot(l: Layout, d: seq<Byte>, d1: seq<Byte>, d2: seq<Byte>, free: iset<nat>, free1: iset<nat>, free2: iset<nat>,
      b: nat, level: nat, idx: nat, leaf: nat, extra: seq<nat>)
    requires ValidLayout(l) && OnDisk(l, d) && OnDisk(l, d1) && BlockOk(l, b) && 0 < level && idx < Span(l.entries, level)
    requires TakenFrom(free, free1, b, l.g.frag) && SameElsewhere(l.fs, d, d1, b, l.g.frag)
    requires Load(l, d1, b, level) == Blank(l.entries, b)
    requires Stored(l, d1, d2, free1, free2, b, level, idx, leaf, extra)
    ensures StoredAt(l, d, d2, free, free2, Hole, b, level, idx, leaf, [b] + extra)
    ensures |Blocks(l.g.frag, [b] + extra)| == l.g.frag + |Blocks(l.g.frag, extra)|
  {
    hide Sound, Load, SameFrag;
    assert ([b] + extra)[1..] == extra;
    BlankMissing(l.entries, b, level, idx);
    BlockTaken(free, free1, free2, b, l.g.frag, extra);
    BlankOwned(l.g.frag, l.entries, b, false);
    forall y: nat | Holders(free, multiset{}, y) == 0 ensures SameFrag(l.fs, d, d2, y) {
      SameTwice(l.fs, d, d1, d2, y);
    }
  }

  lemma SameTwice(fs: nat, d: seq<Byte>, d1: seq<Byte>, d2: seq<Byte>, y: nat)
    ensures SameFrag(fs, d, d1, y) && SameFrag(fs, d1, d2, y) ==> SameFrag(fs, d, d2, y)
  {
  }

  /** A tree that was a hole gets its root first. */
  method SetNewRoot(v: Volume, level: nat, idx: nat, leaf: nat, preferred: nat, metadata: nat)
    returns (r: Option<Errno>, x': nat, metadata': nat, ghost extra: seq<nat>)
    requires v.Valid() && 0 < level && idx < Span(v.entries, level) && 0 < leaf < 0x1_0000_0000
    modifies v
    ensures v.Valid()
    ensures r.Some? ==> v.Refusal(r.value, {v.g.frag})
    ensures old(v.AffordsBlocks(level)) ==> r.None?
    ensures r.None? ==> v.SpentBlocks(|extra|)
    ensures r.None? ==>
      && StoredAt(v.Lay(), old(v.data), v.data, old(v.Free()), v.Free(), Hole, x', level, idx, leaf, extra)
      && metadata' == metadata + |Blocks(v.g.frag, extra)|
  {
    hide Sound, Owned, CountsValid, IsFree, Exclusive, SameFrag, Conserved, Untouched, Graft, Missing, Words, Times, Quot,
      Load, Span;
    ghost var l, d, free := v.Lay(), v.data, v.Free();
    TimesAdd(v.g.frag, 1, level - 1);
    var grant := AllocateZeroedBlock(v, preferred);
    if grant.Denied? {
      return Some(grant.error), 0, metadata, [];
    }
    ghost var d1, free1 := v.data, v.Free();
    assert Load(l, d1, grant.frag, level) == Blank(v.entries, grant.frag);
    NewRoot(l, d, d1, free, free1, grant.frag, level);
    BlankMissing(v.entries, grant.frag, level, idx);
    r, metadata', extra := SetIndirect(v, grant.frag, level, idx, leaf, preferred, metadata + v.g.frag);
    x' := grant.frag;
    if r.Some? {
      v.RefusalMore(r.value, IfAny(v.g.frag, level - 1), {v.g.frag});
    }
    if r.None? {
      StoredInNewRoot(l, d, d1, v.data, free, free1, v.Free(), grant.frag, level, idx, leaf, extra);
      extra := [grant.frag] + extra;
    }
  }

  method SetFromRoot(v: Volume, x: nat, level: nat, idx: nat, leaf: nat, preferred: nat, metadata: nat)
    returns (r: Option<Errno>, x': nat, metadata': nat, ghost extra: seq<nat>)
    requires v.Valid() && 0 < level && idx < Span(v.entries, level) && 0 < leaf < 0x1_0000_0000
    requires x != 0 ==> Rooted(v.Lay(), v.data, v.Free(), x, level)
    modifies v
    ensures v.Valid()
    ensures r.Some? ==> v.Refusal(r.value, IfAny(v.g.frag, old(Lacks(v, x, level, idx))))
    ensures old(v.AffordsBlocks(Lacks(v, x, level, idx))) ==> r.None?
    ensures r.None? ==> v.SpentBlocks(|extra|)
    ensures r.None? ==>
      && StoredAt(v.Lay(), old(v.data), v.data, old(v.Free()), v.Free(), Load(v.Lay(), old(v.data), x, level), x', level, idx, leaf, extra)
      && metadata' == metadata + |Blocks(v.g.frag, extra)|
  {
    hide Sound, Owned, CountsValid, IsFree, Exclusive, SameFrag, Conserved, Untouched, Graft, Missing, Words, Times, Quot,
      Load, Span;
    if x != 0 {
      r, metadata', extra := SetIndirect(v, x, level, idx, leaf, preferred, metadata);
      return r, x, metadata', extra;
    }
    HoleMissing(v.Lay(), v.data, level, idx);
    r, x', metadata', extra := SetNewRoot(v, level, idx, leaf, preferred, metadata);
  }
}
