/** `prune_tree`: releasing the part of an indirect tree at or beyond a block count, in place. */
module Pruning {
  import opened Scale
  import opened Ledger
  import opened Volume
  import opened BlockTree
  import opened IndirectBlocks

  // ----- a block of pointers as bytes -----

  function Encode(ws: seq<nat>): (s: seq<Byte>)
    requires forall i | 0 <= i < |ws| :: ws[i] < 0x1_0000_0000
    ensures |s| == 4 * |ws|
  {
    seq(4 * |ws|, p requires 0 <= p < 4 * |ws| => Write32(ws[p / 4])[p % 4])
  }

  predicate HasWord(d: seq<Byte>, p: nat, i: nat, w: nat) {
    p + 4 * i + 4 <= |d| && Read32(d, p + 4 * i) == w
  }

  lemma EncodeAt(ws: seq<nat>, i: nat, c: nat)
    requires forall k | 0 <= k < |ws| :: ws[k] < 0x1_0000_0000
    requires i < |ws| && c < 4
    ensures Encode(ws)[4 * i + c] == Write32(ws[i])[c]
  {
    hide Write32;
    assert (4 * i + c) / 4 == i && (4 * i + c) % 4 == c;
  }

  lemma EncodeWord(d: seq<Byte>, p: nat, ws: seq<nat>, i: nat)
    requires forall k | 0 <= k < |ws| :: ws[k] < 0x1_0000_0000
    requires p + 4 * |ws| <= |d| && i < |ws|
    ensures HasWord(Put(d, p, Encode(ws)), p, i, ws[i])
  {
    hide Encode, Write32, Put;
    EncodeAt(ws, i, 0);
    EncodeAt(ws, i, 1);
    EncodeAt(ws, i, 2);
    EncodeAt(ws, i, 3);
    ReadCopy(Put(d, p, Encode(ws)), p + 4 * i, Write32(ws[i]));
  }

  lemma ReadCopy(s: seq<Byte>, p: nat, w: seq<Byte>)
    requires p + 4 <= |s| && |w| == 4 && s[p] == w[0] && s[p + 1] == w[1] && s[p + 2] == w[2] && s[p + 3] == w[3]
    ensures Read32(s, p) == Read32(w, 0)
  {
  }

  lemma WordsFrom(l: Layout, d: seq<Byte>, x: nat, ws: seq<nat>)
    requires ValidLayout(l) && OnDisk(l, d) && x + l.g.frag <= l.fragCount && |ws| == l.entries
    requires forall i | 0 <= i < |ws| :: HasWord(d, Times(l.fs, x), i, ws[i])
    ensures Words(l, d, x) == ws
  {
    forall i | 0 <= i < |ws| ensures Words(l, d, x)[i] == ws[i] {
      WordAt(l, d, x, i);
      assert HasWord(d, Times(l.fs, x), i, ws[i]);
    }
  }

  /** Writing a block of pointers makes it read back as those pointers. */
  lemma WordsStored(l: Layout, d: seq<Byte>, x: nat, ws: seq<nat>)
    requires ValidLayout(l) && OnDisk(l, d) && x + l.g.frag <= l.fragCount
    requires |ws| == l.entries && forall i | 0 <= i < |ws| :: ws[i] < 0x1_0000_0000
    ensures Times(l.fs, x) + 4 * |ws| <= |d|
    ensures var d' := Put(d, Times(l.fs, x), Encode(ws));
      Words(l, d', x) == ws && SameElsewhere(l.fs, d, d', x, l.g.frag)
  {
    RunFits(l, x, l.g.frag);
    PutElsewhere(l.fs, d, x, l.g.frag, Times(l.fs, x), Encode(ws));
    var d' := Put(d, Times(l.fs, x), Encode(ws));
    forall i | 0 <= i < |ws| ensures HasWord(d', Times(l.fs, x), i, ws[i]) {
      EncodeWord(d, Times(l.fs, x), ws, i);
    }
    WordsFrom(l, d', x, ws);
  }

  // ----- the pointers of a block and the trees below them -----

  ghost predicate Forest(l: Layout, d: seq<Byte>, ws: seq<nat>, level: nat, ts: seq<Tree>)
    requires ValidLayout(l) && OnDisk(l, d)
  {
    && |ws| == |ts|
    && forall i | 0 <= i < |ws| :: Load(l, d, ws[i], level) == ts[i]
  }

  ghost predicate AllSound(l: Layout, ts: seq<Tree>, level: nat)
    requires ValidLayout(l)
  {
    forall i | 0 <= i < |ts| :: Sound(l, ts[i], level)
  }

  function RowHeld(frag: nat, ts: seq<Tree>): multiset<nat> {
    Union(Parts(frag, ts, true))
  }

  /** Only the given index fragments were written. */
  ghost predicate OnlyWrote(fs: nat, own: multiset<nat>, d: seq<Byte>, d': seq<Byte>) {
    |d'| == |d| && forall y: nat | own[y] == 0 :: SameFrag(fs, d, d', y)
  }

  /** Replacing one tree, having written only its index blocks, leaves the others as they were. */
  lemma ForestStep(l: Layout, d: seq<Byte>, d': seq<Byte>, ws: seq<nat>, level: nat, ts: seq<Tree>, i: nat, w: nat, free: iset<nat>)
    requires ValidLayout(l) && OnDisk(l, d) && OnDisk(l, d') && Forest(l, d, ws, level, ts) && AllSound(l, ts, level) && i < |ts|
    requires Exclusive(free, RowHeld(l.g.frag, ts)) && OnlyWrote(l.fs, Owned(l.g.frag, ts[i], false), d, d')
    ensures Forest(l, d', ws[i := w], level, ts[i := Load(l, d', w, level)])
  {
    forall j | 0 <= j < |ts| && j != i ensures Load(l, d', ws[j], level) == ts[j] {
      ForestOther(l, d, d', ws, level, ts, i, j, free);
    }
  }

  lemma TreesApart(frag: nat, ts: seq<Tree>, i: nat, j: nat, free: iset<nat>, y: nat)
    requires i < |ts| && j < |ts| && i != j && Exclusive(free, RowHeld(frag, ts)) && Owned(frag, ts[j], false)[y] > 0
    ensures Owned(frag, ts[i], false)[y] == 0
  {
    UnionPair(Parts(frag, ts, true), j, i, y);
    IndexLess(frag, ts[i], y);
    IndexLess(frag, ts[j], y);
    assert Holders(free, RowHeld(frag, ts), y) <= 1;
  }

  lemma ForestOther(l: Layout, d: seq<Byte>, d': seq<Byte>, ws: seq<nat>, level: nat, ts: seq<Tree>, i: nat, j: nat, free: iset<nat>)
    requires ValidLayout(l) && OnDisk(l, d) && OnDisk(l, d') && Forest(l, d, ws, level, ts) && AllSound(l, ts, level)
    requires i < |ts| && j < |ts| && i != j
    requires Exclusive(free, RowHeld(l.g.frag, ts)) && OnlyWrote(l.fs, Owned(l.g.frag, ts[i], false), d, d')
    ensures Load(l, d', ws[j], level) == ts[j]
  {
    var f := l.g.frag;
    forall y | Owned(f, ts[j], false)[y] > 0 ensures SameFrag(l.fs, d, d', y) {
      TreesApart(f, ts, i, j, free, y);
    }
    LoadFrame(l, d, d', ws[j], level);
  }

  /** What one tree gave up, the whole row gave up. */
  lemma HeldStep(frag: nat, ts: seq<Tree>, i: nat, t: Tree, free: iset<nat>, free': iset<nat>)
    requires i < |ts| && Conserved(free, Owned(frag, ts[i], true), free', Owned(frag, t, true))
    ensures Conserved(free, RowHeld(frag, ts), free', RowHeld(frag, ts[i := t]))
    ensures |RowHeld(frag, ts[i := t])| + |Owned(frag, ts[i], true)| == |RowHeld(frag, ts)| + |Owned(frag, t, true)|
  {
    var ms, m := Parts(frag, ts, true), Owned(frag, t, true);
    assert Parts(frag, ts[i := t], true) == ms[i := m];
    UnionStep(ms, i, m, free, free');
  }

  // ----- one call -----

  /** A pointer to a sound tree that shares no fragment with itself or the free map. */
  ghost predicate TreeOk(l: Layout, d: seq<Byte>, free: iset<nat>, x: nat, level: nat)
    requires ValidLayout(l) && OnDisk(l, d)
  {
    && Sound(l, Load(l, d, x, level), level)
    && Exclusive(free, Owned(l.g.frag, Load(l, d, x, level), true))
  }

  /** The pointer, which led to `t`, is now `x` and leads to `t'`; what `t'` no longer holds is free
      again, and only index blocks of `t` were written. */
  ghost predicate Released(l: Layout, d: seq<Byte>, d': seq<Byte>, free: iset<nat>, free': iset<nat>, t: Tree, x: nat, level: nat, t': Tree)
    requires ValidLayout(l)
  {
    && OnDisk(l, d')
    && Load(l, d', x, level) == t' && (x == 0 <==> t'.Hole?)
    && Conserved(free, Owned(l.g.frag, t, true), free', Owned(l.g.frag, t', true))
    && OnlyWrote(l.fs, Owned(l.g.frag, t, false), d, d')
  }

  /** The children before `i` are pruned, the others are as they were. */
  function Progress(n: nat, t: Tree, level: nat, base: nat, keep: nat, i: nat): (ts: seq<Tree>)
    requires 0 < n && t.Index? && 0 < level && i <= |t.kids|
    ensures |ts| == |t.kids|
  {
    PrunedKids(n, t, level, base, keep)[..i] + t.kids[i..]
  }

  lemma ProgressStep(n: nat, t: Tree, level: nat, base: nat, keep: nat, i: nat)
    requires 0 < n && t.Index? && 0 < level && i < |t.kids|
    ensures Progress(n, t, level, base, keep, i)[i] == t.kids[i]
    ensures Progress(n, t, level, base, keep, i + 1)
         == Progress(n, t, level, base, keep, i)[i := PrunedKid(n, t, level, base, keep, i)]
  {
  }

  /** The disk side of a row of trees below one block: pointers lead to the trees, and only index blocks
      of the original row were written. */
  ghost predicate RowOnDisk(l: Layout, d: seq<Byte>, d': seq<Byte>, kids: seq<Tree>, level: nat, buf: seq<nat>, ts: seq<Tree>)
    requires ValidLayout(l)
  {
    && OnDisk(l, d') && (forall k | 0 <= k < |buf| :: buf[k] < 0x1_0000_0000)
    && Forest(l, d', buf, level, ts)
    && OnlyWrote(l.fs, Union(Parts(l.g.frag, kids, false)), d, d')
  }

  /** The ledger side: what the row no longer holds is free; `gone` counts it. */
  ghost predicate RowInLedger(frag: nat, free: iset<nat>, free': iset<nat>, kids: seq<Tree>, ts: seq<Tree>, gone: int) {
    && Conserved(free, RowHeld(frag, kids), free', RowHeld(frag, ts))
    && gone == |RowHeld(frag, kids)| - |RowHeld(frag, ts)|
  }

  /** The trees below a sound block are sound and share nothing. */
  lemma KidsApart(l: Layout, free: iset<nat>, t: Tree)
    requires t.Index? && Exclusive(free, Owned(l.g.frag, t, true))
    ensures Exclusive(free, RowHeld(l.g.frag, t.kids))
  {
    OwnedIndex(l.g.frag, t, true);
    forall y: nat ensures Holders(free, RowHeld(l.g.frag, t.kids), y) <= 1 {
      assert Holders(free, Owned(l.g.frag, t, true), y) <= 1;
    }
  }

  lemma ProgressSound(l: Layout, t: Tree, level: nat, base: nat, keep: nat, i: nat)
    requires ValidLayout(l) && t.Index? && 0 < level && Sound(l, t, level) && i <= |t.kids|
    ensures AllSound(l, Progress(l.entries, t, level, base, keep, i), level - 1)
  {
    var ts := Progress(l.entries, t, level, base, keep, i);
    forall k | 0 <= k < |ts| ensures Sound(l, ts[k], level - 1) {
      if k < i {
        PruneSound(l, t.kids[k], level - 1, base + Times(Span(l.entries, level - 1), k), keep);
        assert ts[k] == PrunedKid(l.entries, t, level, base, keep, k);
      } else {
        assert ts[k] == t.kids[k];
      }
    }
  }

  lemma PartExclusive(free: iset<nat>, ms: seq<multiset<nat>>, i: nat)
    requires i < |ms| && Exclusive(free, Union(ms))
    ensures Exclusive(free, ms[i])
  {
    forall y: nat ensures Holders(free, ms[i], y) <= 1 {
      UnionPair(ms, i, i, y);
      assert Holders(free, Union(ms), y) <= 1;
    }
  }

  /** The next child is ready to be pruned. */
  lemma NextOk(l: Layout, d: seq<Byte>, d': seq<Byte>, free: iset<nat>, free': iset<nat>,
      kids: seq<Tree>, level: nat, buf: seq<nat>, ts: seq<Tree>, i: nat, gone: int)
    requires ValidLayout(l) && Exclusive(free, RowHeld(l.g.frag, kids)) && AllSound(l, ts, level) && i < |ts|
    requires RowOnDisk(l, d, d', kids, level, buf, ts) && RowInLedger(l.g.frag, free, free', kids, ts, gone)
    ensures i < |buf| && TreeOk(l, d', free', buf[i], level) && Load(l, d', buf[i], level) == ts[i]
    ensures Exclusive(free', RowHeld(l.g.frag, ts))
  {
    StillExclusive(free, RowHeld(l.g.frag, kids), free', RowHeld(l.g.frag, ts));
    PartExclusive(free', Parts(l.g.frag, ts, true), i);
  }

  lemma AdvanceOnDisk(l: Layout, d: seq<Byte>, d1: seq<Byte>, d2: seq<Byte>, free1: iset<nat>,
      kids: seq<Tree>, level: nat, buf: seq<nat>, ts: seq<Tree>, i: nat, w: nat)
    requires ValidLayout(l) && OnDisk(l, d2) && AllSound(l, ts, level) && Exclusive(free1, RowHeld(l.g.frag, ts))
    requires RowOnDisk(l, d, d1, kids, level, buf, ts) && i < |ts| == |kids| && ts[i] == kids[i] && w < 0x1_0000_0000
    requires OnlyWrote(l.fs, Owned(l.g.frag, ts[i], false), d1, d2)
    ensures |buf| == |ts| && RowOnDisk(l, d, d2, kids, level, buf[i := w], ts[i := Load(l, d2, w, level)])
  {
    ForestStep(l, d1, d2, buf, level, ts, i, w, free1);
    OnlyWroteBelow(l, d, d1, d2, kids, i);
  }

  lemma AdvanceInLedger(frag: nat, free: iset<nat>, free1: iset<nat>, free2: iset<nat>, kids: seq<Tree>, ts: seq<Tree>, i: nat, t: Tree, gone: int)
    requires RowInLedger(frag, free, free1, kids, ts, gone) && i < |ts|
    requires Conserved(free1, Owned(frag, ts[i], true), free2, Owned(frag, t, true))
    ensures RowInLedger(frag, free, free2, kids, ts[i := t], gone + |Owned(frag, ts[i], true)| - |Owned(frag, t, true)|)
  {
    HeldStep(frag, ts, i, t, free1, free2);
    HeldTwice(free, RowHeld(frag, kids), free1, RowHeld(frag, ts), free2, RowHeld(frag, ts[i := t]));
  }

  lemma HeldTwice(free: iset<nat>, a: multiset<nat>, free1: iset<nat>, b: multiset<nat>, free2: iset<nat>, c: multiset<nat>)
    requires Conserved(free, a, free1, b) && Conserved(free1, b, free2, c)
    ensures Conserved(free, a, free2, c)
  {
    forall y: nat ensures Holders(free2, c, y) == Holders(free, a, y) {
      assert Holders(free2, c, y) == Holders(free1, b, y);
    }
  }

  lemma OnlyWroteBelow(l: Layout, d: seq<Byte>, d1: seq<Byte>, d2: seq<Byte>, kids: seq<Tree>, i: nat)
    requires i < |kids| && OnlyWrote(l.fs, Union(Parts(l.g.frag, kids, false)), d, d1)
    requires OnlyWrote(l.fs, Owned(l.g.frag, kids[i], false), d1, d2)
    ensures OnlyWrote(l.fs, Union(Parts(l.g.frag, kids, false)), d, d2)
  {
    var ms := Parts(l.g.frag, kids, false);
    forall y: nat | Union(ms)[y] == 0 ensures SameFrag(l.fs, d, d2, y) {
      UnionPair(ms, i, i, y);
      assert ms[i] == Owned(l.g.frag, kids[i], false);
      assert SameFrag(l.fs, d, d1, y) && SameFrag(l.fs, d1, d2, y);
    }
  }

  /** The block above the row: `t` is `Index(x, kids)`. */
  lemma AboveRow(frag: nat, free: iset<nat>, free1: iset<nat>, x: nat, kids: seq<Tree>, ts: seq<Tree>, gone: int)
    requires RowInLedger(frag, free, free1, kids, ts, gone)
    ensures Conserved(free, Owned(frag, Index(x, kids), true), free1, Owned(frag, Index(x, ts), true))
    ensures gone == |Owned(frag, Index(x, kids), true)| - |Owned(frag, Index(x, ts), true)|
  {
    OwnedIndex(frag, Index(x, kids), true);
    OwnedIndex(frag, Index(x, ts), true);
    forall y: nat
      ensures Holders(free1, Run(x, frag) + RowHeld(frag, ts), y) == Holders(free, Run(x, frag) + RowHeld(frag, kids), y)
    {
      assert Holders(free1, RowHeld(frag, ts), y) == Holders(free, RowHeld(frag, kids), y);
    }
  }

  lemma RowThenBlock(l: Layout, d: seq<Byte>, d1: seq<Byte>, d2: seq<Byte>, x: nat, kids: seq<Tree>)
    requires OnlyWrote(l.fs, Union(Parts(l.g.frag, kids, false)), d, d1) && SameElsewhere(l.fs, d1, d2, x, l.g.frag)
    ensures OnlyWrote(l.fs, Owned(l.g.frag, Index(x, kids), false), d, d2)
  {
    OwnedIndex(l.g.frag, Index(x, kids), false);
    forall y: nat | Owned(l.g.frag, Index(x, kids), false)[y] == 0 ensures SameFrag(l.fs, d, d2, y) {
      assert SameFrag(l.fs, d, d1, y) && SameFrag(l.fs, d1, d2, y);
    }
  }

  /** The edited block is written back: it now leads to the row. */
  lemma BlockLeads(l: Layout, d: seq<Byte>, d': seq<Byte>, free: iset<nat>, x: nat, level: nat, buf: seq<nat>, ts: seq<Tree>)
    requires ValidLayout(l) && OnDisk(l, d) && OnDisk(l, d') && x != 0 && 0 < level && x + l.g.frag <= l.fragCount
    requires Forest(l, d, buf, level - 1, ts) && AllSound(l, ts, level - 1) && |ts| == l.entries
    requires Exclusive(free, Owned(l.g.frag, Index(x, ts), true))
    requires Words(l, d', x) == buf && SameElsewhere(l.fs, d, d', x, l.g.frag)
    ensures Load(l, d', x, level) == Index(x, ts)
  {
    forall i | 0 <= i < l.entries ensures Load(l, d', buf[i], level - 1) == ts[i] {
      KidBeside(l, d, d', free, x, level, buf, ts, i);
    }
    assert Load(l, d', x, level).kids == ts;
  }

  lemma KidBeside(l: Layout, d: seq<Byte>, d': seq<Byte>, free: iset<nat>, x: nat, level: nat, buf: seq<nat>, ts: seq<Tree>, i: nat)
    requires ValidLayout(l) && OnDisk(l, d) && OnDisk(l, d') && 0 < level && i < |ts|
    requires Forest(l, d, buf, level - 1, ts) && AllSound(l, ts, level - 1)
    requires Exclusive(free, Owned(l.g.frag, Index(x, ts), true)) && SameElsewhere(l.fs, d, d', x, l.g.frag)
    ensures Load(l, d', buf[i], level - 1) == ts[i]
  {
    var f := l.g.frag;
    forall y | Owned(f, ts[i], false)[y] > 0 ensures SameFrag(l.fs, d, d', y) {
      OwnedPair(f, Index(x, ts), i, i, true, y);
      IndexLess(f, ts[i], y);
      assert Holders(free, Owned(f, Index(x, ts), true), y) <= 1;
    }
    LoadFrame(l, d, d', buf[i], level - 1);
  }

  /** Returns a run that its owner gives up. It cannot fail, because an owned run is not free. */
  method ReleaseRun(v: Volume, x: nat, n: nat, ghost rest: multiset<nat>)
    requires v.Valid() && 0 < x && 0 < n && InOneBlock(v.g, v.lens, x, n) && Exclusive(v.Free(), rest + Run(x, n))
    modifies v`cgs, v`csum, v`total
    ensures v.Valid() && Conserved(old(v.Free()), rest + Run(x, n), v.Free(), rest) && v.Spent(0, 0)
  {
    forall y | x <= y < x + n ensures !IsFree(v.g, v.cgs, y) {
      assert Holders(v.Free(), rest + Run(x, n), y) <= 1;
    }
    ghost var free := v.Free();
    var r := v.FreeRun(x, n);
    ReleaseConserves(free, v.Free(), rest, x, n);
  }

  method WriteBlock(v: Volume, x: nat, buf: seq<nat>)
    requires v.Valid() && x + v.g.frag <= v.fragCount && |buf| == v.entries
    requires forall i | 0 <= i < |buf| :: buf[i] < 0x1_0000_0000
    modifies v`data
    ensures v.Valid() && Words(v.Lay(), v.data, x) == buf
    ensures SameElsewhere(v.fsize, old(v.data), v.data, x, v.g.frag)
  {
    WordsStored(v.Lay(), v.data, x, buf);
    var base := Mul(v.fsize, x);
    v.data := Put(v.data, base, Encode(buf));
  }

  /** `Released`, as a statement about a volume whose bytes and free map were `d` and `free`. */
  ghost predicate Dropped(v: Volume, d: seq<Byte>, free: iset<nat>, t: Tree, x: nat, level: nat, t': Tree, gone: int)
    requires v.Valid()
    reads v
  {
    && Released(v.Lay(), d, v.data, free, v.Free(), t, x, level, t')
    && gone == |Owned(v.g.frag, t, true)| - |Owned(v.g.frag, t', true)|
  }

  /** One entry of an index block: a data block when `level` is zero, otherwise a subtree. */
  method PruneEntry(v: Volume, x: nat, level: nat, base: nat, keep: nat, released: int, ghost t: Tree, ghost kept: Tree)
    returns (x': nat, released': int)
    requires v.Valid() && TreeOk(v.Lay(), v.data, v.Free(), x, level) && t == Load(v.Lay(), v.data, x, level)
    requires kept == Prune(v.entries, t, level, base, keep)
    modifies v
    ensures v.Valid() && (x' == 0 || x' == x) && released <= released'
    ensures Dropped(v, old(v.data), old(v.Free()), t, x', level, kept, released' - released)
    decreases level, 3
  {
    hide Sound, RowHeld, Union, CountsValid, IsFree, Exclusive;
    if x == 0 {
      return 0, released;
    }
    if level > 0 {
      x', released' := PruneTree(v, x, level, base, keep, released, t, kept);
    } else if base >= keep {
      PruneLeaf(v, x);
      return 0, released + v.g.frag;
    } else {
      return x, released;
    }
  }

  method PruneLeaf(v: Volume, x: nat)
    requires v.Valid() && x != 0 && TreeOk(v.Lay(), v.data, v.Free(), x, 0)
    modifies v`cgs, v`csum, v`total
    ensures v.Valid() && Released(v.Lay(), old(v.data), v.data, old(v.Free()), v.Free(), Leaf(x), 0, 0, Hole)
  {
    assert multiset{} + Run(x, v.g.frag) == Run(x, v.g.frag);
    ReleaseRun(v, x, v.g.frag, multiset{});
  }

  /** The entries before `i` are pruned. */
  ghost predicate RowDone(l: Layout, d: seq<Byte>, d': seq<Byte>, free: iset<nat>, free': iset<nat>,
      t: Tree, level: nat, base: nat, keep: nat, buf: seq<nat>, i: nat, gone: int)
    requires ValidLayout(l) && t.Index? && 0 < level && i <= |t.kids|
  {
    var ts := Progress(l.entries, t, level, base, keep, i);
    && RowOnDisk(l, d, d', t.kids, level - 1, buf, ts)
    && RowInLedger(l.g.frag, free, free', t.kids, ts, gone)
  }

  lemma RowReady(l: Layout, d: seq<Byte>, d': seq<Byte>, free: iset<nat>, free': iset<nat>,
      t: Tree, level: nat, base: nat, keep: nat, buf: seq<nat>, i: nat, gone: int)
    requires ValidLayout(l) && t.Index? && 0 < level && Sound(l, t, level) && Exclusive(free, RowHeld(l.g.frag, t.kids))
    requires i < |t.kids| && RowDone(l, d, d', free, free', t, level, base, keep, buf, i, gone)
    ensures OnDisk(l, d') && i < |buf| && TreeOk(l, d', free', buf[i], level - 1) && Load(l, d', buf[i], level - 1) == t.kids[i]
    ensures Exclusive(free', RowHeld(l.g.frag, Progress(l.entries, t, level, base, keep, i)))
  {
    ProgressSound(l, t, level, base, keep, i);
    ProgressStep(l.entries, t, level, base, keep, i);
    NextOk(l, d, d', free, free', t.kids, level - 1, buf, Progress(l.entries, t, level, base, keep, i), i, gone);
  }

  /** One step of the loop over a block's entries, on the row of trees. */
  lemma RowStep(l: Layout, d: seq<Byte>, d1: seq<Byte>, d2: seq<Byte>, free: iset<nat>, free1: iset<nat>, free2: iset<nat>,
      t: Tree, level: nat, base: nat, keep: nat, buf: seq<nat>, i: nat, w: nat, gone: int)
    requires ValidLayout(l) && t.Index? && 0 < level && Sound(l, t, level) && i < |t.kids|
    requires Exclusive(free1, RowHeld(l.g.frag, Progress(l.entries, t, level, base, keep, i)))
    requires RowDone(l, d, d1, free, free1, t, level, base, keep, buf, i, gone)
    requires Released(l, d1, d2, free1, free2, t.kids[i], w, level - 1, PrunedKid(l.entries, t, level, base, keep, i)) && w < 0x1_0000_0000
    ensures |buf| == |t.kids| && RowDone(l, d, d2, free, free2, t, level, base, keep, buf[i := w], i + 1,
      gone + |Owned(l.g.frag, t.kids[i], true)| - |Owned(l.g.frag, PrunedKid(l.entries, t, level, base, keep, i), true)|)
  {
    var ts, kid := Progress(l.entries, t, level, base, keep, i), PrunedKid(l.entries, t, level, base, keep, i);
    ProgressStep(l.entries, t, level, base, keep, i);
    ProgressSound(l, t, level, base, keep, i);
    AdvanceOnDisk(l, d, d1, d2, free1, t.kids, level - 1, buf, ts, i, w);
    AdvanceInLedger(l.g.frag, free, free1, free2, t.kids, ts, i, kid, gone);
  }

  lemma RowBegin(l: Layout, d: seq<Byte>, free: iset<nat>, x: nat, level: nat, base: nat, keep: nat)
    requires ValidLayout(l) && OnDisk(l, d) && x != 0 && 0 < level && x + l.g.frag <= l.fragCount
    ensures RowDone(l, d, d, free, free, Load(l, d, x, level), level, base, keep, Words(l, d, x), 0, 0)
  {
    var t := Load(l, d, x, level);
    assert Progress(l.entries, t, level, base, keep, 0) == t.kids;
  }

  ghost predicate AnyUpTo(ks: seq<Tree>, i: nat) {
    exists k :: 0 <= k < i && k < |ks| && !ks[k].Hole?
  }

  lemma AnyStep(ks: seq<Tree>, i: nat)
    requires i < |ks|
    ensures AnyUpTo(ks, i + 1) <==> AnyUpTo(ks, i) || !ks[i].Hole?
  {
  }

  /** Prunes entry `i` of the block and keeps the row's books. */
  method PruneNext(v: Volume, level: nat, base: nat, span: nat, keep: nat, buf: seq<nat>, i: nat, released: int,
      ghost d: seq<Byte>, ghost free: iset<nat>, ghost t: Tree, ghost gone: int)
    returns (buf': seq<nat>, child: nat, released': int)
    requires v.Valid() && 0 < level && t.Index? && Sound(v.Lay(), t, level) && i < |t.kids| && span == Span(v.entries, level - 1)
    requires Exclusive(free, RowHeld(v.g.frag, t.kids))
    requires RowDone(v.Lay(), d, v.data, free, v.Free(), t, level, base, keep, buf, i, gone)
    modifies v
    ensures v.Valid() && released <= released'
    ensures RowDone(v.Lay(), d, v.data, free, v.Free(), t, level, base, keep, buf', i + 1, gone + released' - released)
    ensures child != 0 <==> !PrunedKid(v.entries, t, level, base, keep, i).Hole?
    decreases level, 0
  {
    hide Sound, Load, Owned, Prune, RowHeld, Union, CountsValid, IsFree, Exclusive;
    ghost var l, d1, free1 := v.Lay(), v.data, v.Free();
    RowReady(l, d, d1, free, free1, t, level, base, keep, buf, i, gone);
    var below := Mul(span, i);
    ghost var kept := PrunedKid(v.entries, t, level, base, keep, i);
    child, released' := PruneEntry(v, buf[i], level - 1, base + below, keep, released, t.kids[i], kept);
    RowStep(l, d, d1, v.data, free, free1, v.Free(), t, level, base, keep, buf, i, child, gone);
    buf' := buf[i := child];
  }

  /** The loop over the entries of a block. */
  method PruneRow(v: Volume, x: nat, level: nat, base: nat, keep: nat, released: int, ghost t: Tree)
    returns (buf: seq<nat>, any: bool, released': int)
    requires v.Valid() && 0 < level && x != 0 && x + v.g.frag <= v.fragCount && t == Load(v.Lay(), v.data, x, level)
    requires Sound(v.Lay(), t, level) && Exclusive(v.Free(), RowHeld(v.g.frag, t.kids))
    modifies v
    ensures v.Valid() && released <= released'
    ensures RowDone(v.Lay(), old(v.data), v.data, old(v.Free()), v.Free(), t, level, base, keep, buf, v.entries, released' - released)
    ensures any <==> AnyUpTo(PrunedKids(v.entries, t, level, base, keep), v.entries)
    decreases level, 1
  {
    hide Sound, Owned, RowHeld, Union, CountsValid, IsFree, Exclusive, RowOnDisk, RowInLedger;
    ghost var d, free := v.data, v.Free();
    var span := ComputeSpan(v.entries, level);
    buf, any, released' := Words(v.Lay(), v.data, x), false, released;
    RowBegin(v.Lay(), d, free, x, level, base, keep);
    for i := 0 to v.entries
      invariant v.Valid() && released <= released'
      invariant RowDone(v.Lay(), d, v.data, free, v.Free(), t, level, base, keep, buf, i, released' - released)
      invariant any <==> AnyUpTo(PrunedKids(v.entries, t, level, base, keep), i)
    {
      var child;
      buf, child, released' := PruneNext(v, level, base, span, keep, buf, i, released', d, free, t, released' - released);
      AnyStep(PrunedKids(v.entries, t, level, base, keep), i);
      any := any || child != 0;
    }
  }

  lemma RowKept(l: Layout, d: seq<Byte>, d1: seq<Byte>, d2: seq<Byte>, free: iset<nat>, free1: iset<nat>, t: Tree,
      level: nat, base: nat, keep: nat, buf: seq<nat>, gone: int)
    requires ValidLayout(l) && OnDisk(l, d) && OnDisk(l, d2) && t.Index? && t.x != 0 && 0 < level && t.x + l.g.frag <= l.fragCount
    requires Sound(l, t, level) && |t.kids| == l.entries && Exclusive(free, Owned(l.g.frag, t, true))
    requires RowDone(l, d, d1, free, free1, t, level, base, keep, buf, l.entries, gone)
    requires Words(l, d2, t.x) == buf && SameElsewhere(l.fs, d1, d2, t.x, l.g.frag)
    requires AnyUpTo(PrunedKids(l.entries, t, level, base, keep), l.entries)
    ensures Released(l, d, d2, free, free1, t, t.x, level, Prune(l.entries, t, level, base, keep))
    ensures gone == |Owned(l.g.frag, t, true)| - |Owned(l.g.frag, Prune(l.entries, t, level, base, keep), true)|
  {
    hide Sound, Load, Owned, Prune, RowHeld, Union, Exclusive, SameFrag, Words, Conserved, SameElsewhere, OnlyWrote;
    var ks := PrunedKids(l.entries, t, level, base, keep);
    PruneIndex(l.entries, t, level, base, keep);
    assert Progress(l.entries, t, level, base, keep, l.entries) == ks;
    ProgressSound(l, t, level, base, keep, l.entries);
    AboveRow(l.g.frag, free, free1, t.x, t.kids, ks, gone);
    StillExclusive(free, Owned(l.g.frag, t, true), free1, Owned(l.g.frag, Index(t.x, ks), true));
    BlockLeads(l, d1, d2, free1, t.x, level, buf, ks);
    RowThenBlock(l, d, d1, d2, t.x, t.kids);
  }

  lemma RowGone(l: Layout, d: seq<Byte>, d1: seq<Byte>, free: iset<nat>, free1: iset<nat>, free2: iset<nat>, t: Tree,
      level: nat, base: nat, keep: nat, buf: seq<nat>, gone: int)
    requires ValidLayout(l) && OnDisk(l, d) && t.Index? && 0 < level && |t.kids| == l.entries
    requires RowDone(l, d, d1, free, free1, t, level, base, keep, buf, l.entries, gone)
    requires !AnyUpTo(PrunedKids(l.entries, t, level, base, keep), l.entries)
    requires Conserved(free1, Run(t.x, l.g.frag), free2, multiset{})
    ensures Released(l, d, d1, free, free2, t, 0, level, Prune(l.entries, t, level, base, keep))
    ensures gone + l.g.frag == |Owned(l.g.frag, t, true)| - |Owned(l.g.frag, Prune(l.entries, t, level, base, keep), true)|
  {
    hide Sound, Prune, RowHeld, Union, Exclusive, SameFrag, Words, Conserved, SameElsewhere, OnlyWrote;
    var ks := PrunedKids(l.entries, t, level, base, keep);
    PruneIndex(l.entries, t, level, base, keep);
    assert Progress(l.entries, t, level, base, keep, l.entries) == ks;
    AboveRow(l.g.frag, free, free1, t.x, t.kids, ks, gone);
    BarrenRow(l.g.frag, t.x, ks);
    HeldTwice(free, Owned(l.g.frag, t, true), free1, Run(t.x, l.g.frag), free2, multiset{});
    OnlyWroteRow(l, d, d1, t.x, t.kids);
  }

  lemma BarrenRow(frag: nat, x: nat, ks: seq<Tree>)
    requires AllHoles(ks)
    ensures Owned(frag, Index(x, ks), true) == Run(x, frag)
  {
    OwnedIndex(frag, Index(x, ks), true);
    UnionEmpty(Parts(frag, ks, true));
  }

  lemma OnlyWroteRow(l: Layout, d: seq<Byte>, d1: seq<Byte>, x: nat, kids: seq<Tree>)
    requires OnlyWrote(l.fs, Union(Parts(l.g.frag, kids, false)), d, d1)
    ensures OnlyWrote(l.fs, Owned(l.g.frag, Index(x, kids), false), d, d1)
  {
    OwnedIndex(l.g.frag, Index(x, kids), false);
  }

  /** `prune_tree`. The pruned tree is what the disk then holds, everything it gave up is free, and the
      count of released fragments is exact. It cannot fail. */
  method PruneTree(v: Volume, x: nat, level: nat, base: nat, keep: nat, released: int, ghost t: Tree, ghost kept: Tree)
    returns (x': nat, released': int)
    requires v.Valid() && 0 < level && TreeOk(v.Lay(), v.data, v.Free(), x, level) && t == Load(v.Lay(), v.data, x, level)
    requires kept == Prune(v.entries, t, level, base, keep)
    modifies v
    ensures v.Valid() && (x' == 0 || x' == x) && released <= released'
    ensures Dropped(v, old(v.data), old(v.Free()), t, x', level, kept, released' - released)
    decreases level, 2
  {
    hide Sound, Load, Owned, Prune, RowHeld, Union, CountsValid, IsFree, Exclusive, Words, SameFrag, Conserved;
    if x == 0 {
      HoleKept(v, level, base, keep, t);
      return 0, released;
    }
    ghost var l, d, free := v.Lay(), v.data, v.Free();
    IndexAt(l, d, x, level);
    KidsApart(l, free, t);
    var buf, any;
    buf, any, released' := PruneRow(v, x, level, base, keep, released, t);
    ghost var d1, free1 := v.data, v.Free();
    if any {
      RowBuf(l, d, d1, free, free1, t, level, base, keep, buf, released' - released);
      WriteBlock(v, x, buf);
      RowKept(l, d, d1, v.data, free, free1, t, level, base, keep, buf, released' - released);
      return x, released';
    }
    RootApart(l, d, d1, free, free1, t, level, base, keep, buf, released' - released);
    ReleaseRun(v, x, v.g.frag, multiset{});
    RowGone(l, d, d1, free, free1, v.Free(), t, level, base, keep, buf, released' - released);
    return 0, released' + v.g.frag;
  }

  lemma HoleKept(v: Volume, level: nat, base: nat, keep: nat, t: Tree)
    requires v.Valid() && t == Load(v.Lay(), v.data, 0, level)
    ensures Dropped(v, v.data, v.Free(), t, 0, level, Prune(v.entries, t, level, base, keep), 0)
  {
  }

  lemma IndexAt(l: Layout, d: seq<Byte>, x: nat, level: nat)
    requires ValidLayout(l) && OnDisk(l, d) && x != 0 && 0 < level && Sound(l, Load(l, d, x, level), level)
    ensures x + l.g.frag <= l.fragCount && BlockOk(l, x)
    ensures var t := Load(l, d, x, level); t.Index? && t.x == x && |t.kids| == l.entries
  {
    InsideSlice(l, x, l.g.frag);
  }

  lemma RowBuf(l: Layout, d: seq<Byte>, d1: seq<Byte>, free: iset<nat>, free1: iset<nat>, t: Tree,
      level: nat, base: nat, keep: nat, buf: seq<nat>, gone: int)
    requires ValidLayout(l) && t.Index? && 0 < level && |t.kids| == l.entries
    requires RowDone(l, d, d1, free, free1, t, level, base, keep, buf, l.entries, gone)
    ensures |buf| == l.entries && forall i | 0 <= i < |buf| :: buf[i] < 0x1_0000_0000
  {
  }

  /** The block above an empty row is not free. */
  lemma RootApart(l: Layout, d: seq<Byte>, d1: seq<Byte>, free: iset<nat>, free1: iset<nat>, t: Tree,
      level: nat, base: nat, keep: nat, buf: seq<nat>, gone: int)
    requires ValidLayout(l) && t.Index? && 0 < level && |t.kids| == l.entries && Exclusive(free, Owned(l.g.frag, t, true))
    requires RowDone(l, d, d1, free, free1, t, level, base, keep, buf, l.entries, gone)
    requires !AnyUpTo(PrunedKids(l.entries, t, level, base, keep), l.entries)
    ensures Exclusive(free1, multiset{} + Run(t.x, l.g.frag)) && multiset{} + Run(t.x, l.g.frag) == Run(t.x, l.g.frag)
  {
    hide Sound, Prune, RowHeld, Union, Exclusive, SameFrag, Words, Conserved, OnlyWrote;
    var ks := PrunedKids(l.entries, t, level, base, keep);
    assert Progress(l.entries, t, level, base, keep, l.entries) == ks;
    AboveRow(l.g.frag, free, free1, t.x, t.kids, ks, gone);
    BarrenRow(l.g.frag, t.x, ks);
    StillExclusive(free, Owned(l.g.frag, t, true), free1, Run(t.x, l.g.frag));
    assert multiset{} + Run(t.x, l.g.frag) == Run(t.x, l.g.frag);
  }
}
