/** Growing, shrinking, reading and writing files in place. */
module FileMutate {
  import opened Scale
  import opened Ledger
  import opened Options
  import opened Volume
  import opened BlockTree
  import opened IndirectBlocks
  import opened Files
  import opened FileNeeds
  import opened Pruning
  import opened Resolve

  /** The inode in memory. */
  class Node {
    var size: nat
    var blocks: nat
    var db: seq<nat>
    var ib: seq<nat>
  }

  /** What an operation sees of the volume: its bytes and its free map. */
  datatype Image = Image(d: seq<Byte>, free: iset<nat>)

  ghost function Img(v: Volume): Image
    requires v.Valid()
    reads v
  {
    Image(v.data, v.Free())
  }

  /** Fragments change hands only between `own` and the free map, and nothing else is written. */
  ghost predicate Step(fs: nat, m: Image, m': Image, own: multiset<nat>, own': multiset<nat>) {
    && Conserved(m.free, own, m'.free, own')
    && Untouched(fs, m.free, own, m.d, m'.d)
  }

  lemma StepTwice(fs: nat, a: Image, b: Image, c: Image, own: multiset<nat>, own1: multiset<nat>, own2: multiset<nat>)
    requires Step(fs, a, b, own, own1) && Step(fs, b, c, own1, own2)
    ensures Step(fs, a, c, own, own2)
  {
    forall y: nat ensures Holders(c.free, own2, y) == Holders(a.free, own, y) {
      assert Holders(c.free, own2, y) == Holders(b.free, own1, y);
    }
    forall y: nat | Holders(a.free, own, y) == 0 ensures SameFrag(fs, a.d, c.d, y) {
      assert Holders(b.free, own1, y) == 0;
      SameTwice(fs, a.d, b.d, c.d, y);
    }
  }

  /** The file is well shaped and no fragment of it has a second holder. */
  ghost predicate Good(l: Layout, m: Image, f: File, lens: seq<nat>)
    requires ValidLayout(l)
  {
    && OnDisk(l, m.d) && Shaped(l, f, lens)
    && Exclusive(m.free, FileHeld(l.g.frag, f, lens, true))
  }

  // ----- storing a pointer in the inode or below it -----

  lemma SlotsApart(l: Layout, m: Image, f: File, lens: seq<nat>, slot: nat, j: nat, y: nat)
    requires ValidLayout(l) && Good(l, m, f, lens) && slot < 3 && j < 3 && j != slot && Owned(l.g.frag, f.trees[j], false)[y] > 0
    ensures Holders(m.free, Owned(l.g.frag, f.trees[slot], false), y) == 0
  {
    hide Union, Owned, Sound, Exclusive, Held;
    var ms := FileParts(l.g.frag, f, lens, true);
    UnionPair(ms, 12 + slot, 12 + j, y);
    IndexLess(l.g.frag, f.trees[slot], y);
    IndexLess(l.g.frag, f.trees[j], y);
    ExclusiveAt(m.free, FileHeld(l.g.frag, f, lens, true), y);
  }

  lemma ExclusiveAt(free: iset<nat>, own: multiset<nat>, y: nat)
    requires Exclusive(free, own)
    ensures Holders(free, own, y) <= 1
  {
  }

  /** Trees whose index blocks were not written load as before. */
  lemma OtherTree(l: Layout, m: Image, d': seq<Byte>, f: File, lens: seq<nat>, slot: nat, j: nat, x: nat)
    requires ValidLayout(l) && Good(l, m, f, lens) && OnDisk(l, d') && slot < 3 && j < 3 && j != slot
    requires f.trees[j] == Load(l, m.d, x, j + 1)
    requires Untouched(l.fs, m.free, Owned(l.g.frag, f.trees[slot], false), m.d, d')
    ensures Load(l, d', x, j + 1) == f.trees[j]
  {
    hide Owned, FileHeld, Exclusive;
    forall y | Owned(l.g.frag, f.trees[j], false)[y] > 0 ensures SameFrag(l.fs, m.d, d', y) {
      SlotsApart(l, m, f, lens, slot, j, y);
    }
    LoadFrame(l, m.d, d', x, j + 1);
  }

  lemma FileFollows(l: Layout, m: Image, d': seq<Byte>, db: seq<nat>, ib: seq<nat>, lens: seq<nat>, slot: nat, x: nat)
    requires ValidLayout(l) && OnDisk(l, m.d) && |ib| == 3 && Good(l, m, FileOf(l, m.d, db, ib), lens) && OnDisk(l, d') && slot < 3
    requires Untouched(l.fs, m.free, Owned(l.g.frag, FileOf(l, m.d, db, ib).trees[slot], false), m.d, d')
    ensures var f := FileOf(l, m.d, db, ib);
      FileOf(l, d', db, ib[slot := x]) == f.(trees := f.trees[slot := Load(l, d', x, slot + 1)])
  {
    hide Owned, FileHeld, Exclusive, Untouched, Shaped, Sound, Load;
    var f := FileOf(l, m.d, db, ib);
    forall j | 0 <= j < 3 && j != slot ensures Load(l, d', ib[j], j + 1) == f.trees[j] {
      OtherTree(l, m, d', f, lens, slot, j, ib[j]);
    }
    var g := FileOf(l, d', db, ib[slot := x]);
    assert g.trees == f.trees[slot := Load(l, d', x, slot + 1)];
  }

  lemma RootOk(l: Layout, m: Image, f: File, lens: seq<nat>, slot: nat, x: nat)
    requires ValidLayout(l) && Good(l, m, f, lens) && slot < 3 && f.trees[slot] == Load(l, m.d, x, slot + 1)
    ensures TreeOk(l, m.d, m.free, x, slot + 1)
    ensures x != 0 ==> Rooted(l, m.d, m.free, x, slot + 1)
  {
    hide Load, Sound, Owned, Blocks, Route;
    var t := f.trees[slot];
    var ms := FileParts(l.g.frag, f, lens, true);
    forall y: nat ensures Holders(m.free, Owned(l.g.frag, t, true), y) <= 1 {
      UnionPair(ms, 12 + slot, 12 + slot, y);
      assert Holders(m.free, FileHeld(l.g.frag, f, lens, true), y) <= 1;
    }
    forall y: nat ensures Holders(m.free, Owned(l.g.frag, t, false), y) <= 1 {
      IndexLess(l.g.frag, t, y);
      assert Holders(m.free, Owned(l.g.frag, t, true), y) <= 1;
    }
    if x != 0 {
      RootedFits(l, m.d, m.free, x, slot + 1);
    }
  }

  /** The stored pointer, seen from the inode. */
  ghost predicate SetAt(l: Layout, m: Image, m': Image, f: File, f': File, lens: seq<nat>, b: nat, leaf: nat, extra: seq<nat>)
    requires ValidLayout(l) && Shaped(l, f, lens)
  {
    && !Where(l.entries, b).Beyond? && |extra| == MissingIn(l.entries, f, b)
    && (forall x | x in extra :: BlockOk(l, x))
    && OnDisk(l, m'.d) && f' == WithBlock(l.entries, f, b, leaf, extra)
    && Conserved(m.free, multiset{}, m'.free, Blocks(l.g.frag, extra))
    && Untouched(l.fs, m.free, FileHeld(l.g.frag, f, lens, false), m.d, m'.d)
  }

  lemma SetInTree(l: Layout, m: Image, m': Image, db: seq<nat>, ib: seq<nat>, lens: seq<nat>, b: nat, leaf: nat, x: nat, extra: seq<nat>)
    requires ValidLayout(l) && OnDisk(l, m.d) && |ib| == 3 && Good(l, m, FileOf(l, m.d, db, ib), lens)
    requires Where(l.entries, b).Indirect?
    requires var w := Where(l.entries, b);
      StoredAt(l, m.d, m'.d, m.free, m'.free, Load(l, m.d, ib[w.slot], w.slot + 1), x, w.slot + 1, w.idx, leaf, extra)
    ensures SetAt(l, m, m', FileOf(l, m.d, db, ib), FileOf(l, m'.d, db, ib[Where(l.entries, b).slot := x]), lens, b, leaf, extra)
  {
    hide Owned, Exclusive, Sound, Load, Graft, Missing, SameFrag, Union, Blocks, Conserved;
    var w := Where(l.entries, b);
    var f := FileOf(l, m.d, db, ib);
    FileFollows(l, m, m'.d, db, ib, lens, w.slot, x);
    var ms := FileParts(l.g.frag, f, lens, false);
    forall y: nat | Holders(m.free, FileHeld(l.g.frag, f, lens, false), y) == 0 ensures SameFrag(l.fs, m.d, m'.d, y) {
      UnionPair(ms, 12 + w.slot, 12 + w.slot, y);
      assert Holders(m.free, Owned(l.g.frag, f.trees[w.slot], false), y) == 0;
    }
  }

  lemma SetInInode(l: Layout, m: Image, db: seq<nat>, ib: seq<nat>, lens: seq<nat>, b: nat, leaf: nat)
    requires ValidLayout(l) && OnDisk(l, m.d) && |ib| == 3 && Good(l, m, FileOf(l, m.d, db, ib), lens) && b < DIRECT
    ensures SetAt(l, m, m, FileOf(l, m.d, db, ib), FileOf(l, m.d, db[b := leaf], ib), lens, b, leaf, [])
  {
  }

  /** `nextufs__set_inode_data_block`. */
  method SetBlock(v: Volume, node: Node, b: nat, leaf: nat, preferred: nat, metadata: nat, ghost lens: seq<nat>)
    returns (r: Option<Errno>, metadata': nat, ghost extra: seq<nat>)
    requires v.Valid() && |node.ib| == 3 && Good(v.Lay(), Img(v), FileOf(v.Lay(), v.data, node.db, node.ib), lens)
    requires 0 < leaf < 0x1_0000_0000
    modifies v, node`db, node`ib
    ensures v.Valid() && |node.ib| == 3
    ensures Where(v.entries, b).Beyond? ==> r == Some(Efbig)
    ensures !Where(v.entries, b).Beyond? && r.Some? ==>
      v.Refusal(r.value, IfAny(v.g.frag, old(MissingIn(v.entries, NodeFile(v, node), b))))
    ensures !Where(v.entries, b).Beyond? && old(v.AffordsBlocks(MissingIn(v.entries, NodeFile(v, node), b))) ==> r.None?
    ensures r.None? ==> v.SpentBlocks(|extra|)
    ensures r.None? ==>
      && SetAt(v.Lay(), old(Img(v)), Img(v), FileOf(v.Lay(), old(v.data), old(node.db), old(node.ib)),
               FileOf(v.Lay(), v.data, node.db, node.ib), lens, b, leaf, extra)
      && metadata' == metadata + |Blocks(v.g.frag, extra)|
  {
    hide Owned, Exclusive, Sound, Load, Graft, Missing, SameFrag, Union, Conserved, CountsValid, IsFree, Untouched, FileHeld;
    ghost var l, m := v.Lay(), Img(v);
    var w := RouteBlock(v.entries, b);
    match w
    case Direct(i) =>
      SetInInode(l, m, node.db, node.ib, lens, b, leaf);
      node.db := node.db[i := leaf];
      return None, metadata, [];
    case Beyond =>
      return Some(Efbig), metadata, [];
    case Indirect(slot, idx) =>
      RootOk(l, m, FileOf(l, m.d, node.db, node.ib), lens, slot, node.ib[slot]);
      var x;
      r, x, metadata', extra := SetFromRoot(v, node.ib[slot], slot + 1, idx, leaf, preferred, metadata);
      if r.None? {
        SetInTree(l, m, Img(v), node.db, node.ib, lens, b, leaf, x, extra);
        node.ib := node.ib[slot := x];
      }
  }

  // ----- growing one block -----

  /** The run `[a, a+after)` is the file's or was free; a moved block leaves its old run in place. */
  ghost predicate Acquired(m: Image, m': Image, own: multiset<nat>, x: nat, before: nat, a: nat, after: nat) {
    && m'.d == m.d && a != 0 && before <= after
    && (if a == x then Conserved(m.free, own, m'.free, own + Run(x + before, after - before))
        else Conserved(m.free, own, m'.free, own + Run(a, after)))
  }

  lemma OwnedNotFree(free: iset<nat>, own: multiset<nat>, x: nat, n: nat)
    requires Exclusive(free, own) && Held(x, n) <= own && x != 0
    ensures forall y: nat | x <= y < x + n :: y !in free
  {
    forall y: nat | x <= y < x + n ensures y !in free {
      assert Held(x, n)[y] == 1;
      assert Holders(free, own, y) <= 1;
    }
  }

  method AllocateRun(v: Volume, preferred: nat, n: nat, ghost own: multiset<nat>) returns (r: Grant)
    requires v.Valid() && 0 < n
    modifies v`cgs, v`csum, v`total
    ensures v.Valid()
    ensures n <= v.g.frag && r.Denied? ==> unchanged(v) && v.Refusal(r.error, {n})
    ensures n <= v.g.frag && old(v.Affords(1, n)) ==> r.Got?
    ensures r.Got? ==> v.Spent(1, n)
    ensures r.Got? ==> RunOk(v.Lay(), r.frag, n) && Conserved(old(v.Free()), own, v.Free(), own + Run(r.frag, n))
    ensures r.Got? ==> forall y: nat | r.frag <= y < r.frag + n :: y in old(v.Free())
  {
    ghost var free := v.Free();
    r := v.AllocateFrags(preferred, n);
    if r.Got? {
      TakeConserves(free, v.Free(), own, r.frag, n);
    }
  }

  method ExtendOwned(v: Volume, x: nat, before: nat, after: nat, ghost own: multiset<nat>) returns (r: Option<Errno>)
    requires v.Valid() && Exclusive(v.Free(), own) && before < after <= v.g.frag
    requires RunOk(v.Lay(), x, before) && Held(x, before) <= own
    modifies v`cgs, v`csum, v`total
    ensures v.Valid()
    ensures r.Some? ==> unchanged(v) && v.Stuck(x, before, after) && (r == Some(Enospc) || v.Refusal(r.value, {after}))
    ensures r.None? ==> v.Spent(0, after - before)
    ensures r.None? ==> RunOk(v.Lay(), x, after)
    ensures r.None? ==> Conserved(old(v.Free()), own, v.Free(), own + Run(x + before, after - before))
  {
    hide CountsValid, Exclusive, Held;
    ghost var free := v.Free();
    OwnedNotFree(free, own, x, before);
    forall y | x <= y < x + before ensures !IsFree(v.g, v.cgs, y) {
      assert y !in v.Free();
    }
    r := v.ExtendRun(x, before, after);
    if r.Some? && r != Some(Enospc) {
      v.RefusalFor(r.value, after);
    }
    if r.None? {
      TakeConserves(free, v.Free(), own, x + before, after - before);
    }
  }

  lemma FreshElsewhere(free: iset<nat>, own: multiset<nat>, x: nat, before: nat, a: nat, after: nat)
    requires Exclusive(free, own) && Held(x, before) <= own && (x != 0 ==> 0 < before) && 0 < after
    requires forall y: nat | a <= y < a + after :: y in free
    ensures a == x ==> x == 0
  {
    if x != 0 {
      OwnedNotFree(free, own, x, before);
      assert x !in free;
    }
  }

  /** Extends the run in place, or allocates another when it cannot be extended. */
  method AcquireRun(v: Volume, x: nat, before: nat, after: nat, preferred: nat, ghost own: multiset<nat>)
    returns (r: Option<Errno>, a: nat)
    requires v.Valid() && Exclusive(v.Free(), own) && 0 < after <= v.g.frag && before <= after
    requires if x == 0 then before == 0 else RunOk(v.Lay(), x, before)
    requires Held(x, before) <= own
    modifies v`cgs, v`csum, v`total
    ensures v.Valid()
    ensures r.Some? ==> unchanged(v) && before < after && v.Refusal(r.value, {after}) && (x != 0 ==> v.Stuck(x, before, after))
    ensures var n := if after == before then 0 else after;
      (old(v.Affords(Runs(n), n)) ==> r.None?) && (r.None? ==> v.Spent(Runs(n), n))
    ensures r.None? ==> RunOk(v.Lay(), a, after) && Acquired(old(Img(v)), Img(v), own, x, before, a, after)
    ensures r.None? && a != x ==> forall y: nat | a <= y < a + after :: y in old(v.Free())
  {
    hide CountsValid, Exclusive, IsFree, Conserved, Held;
    if after == before {
      SameHolders(v.Free(), own, x + before);
      return None, x;
    }
    if x != 0 {
      r := ExtendOwned(v, x, before, after, own);
      if r.None? {
        return None, x;
      }
      if r != Some(Enospc) {
        return r, 0;
      }
    }
    var grant := AllocateRun(v, preferred, after, own);
    if grant.Denied? {
      return Some(grant.error), 0;
    }
    FreshElsewhere(old(v.Free()), own, x, before, grant.frag, after);
    return None, grant.frag;
  }

  lemma SameHolders(free: iset<nat>, own: multiset<nat>, x: nat)
    ensures Conserved(free, own, free, own + Run(x, 0))
  {
  }

  function NewLens(lens: seq<nat>, b: nat, n: nat): (s: seq<nat>)
    requires |lens| == DIRECT
    ensures |s| == DIRECT
  {
    if b < DIRECT then lens[b := n] else lens
  }

  predicate HasBytes(d: seq<Byte>, p: nat, s: seq<Byte>) {
    p + |s| <= |d| && d[p..p + |s|] == s
  }

  /** Block `b` of the file now has the run `after` with the given bytes; every other block points where
      it did, ownership is conserved, and only index blocks, free fragments and the old run were written. */
  ghost predicate Grown(l: Layout, m: Image, m': Image, f: File, f': File, lens: seq<nat>, b: nat, before: nat, after: nat, buf: seq<Byte>)
    requires ValidLayout(l) && Good(l, m, f, lens)
  {
    && Good(l, m', f', NewLens(lens, b, after))
    && Block(l.entries, f', b) != 0 && HasBytes(m'.d, Times(l.fs, Block(l.entries, f', b)), buf)
    && (forall j: nat | j != b :: Block(l.entries, f', j) == Block(l.entries, f, j))
    && Conserved(m.free, FileHeld(l.g.frag, f, lens, true), m'.free, FileHeld(l.g.frag, f', NewLens(lens, b, after), true))
    && Untouched(l.fs, m.free, FileHeld(l.g.frag, f, lens, false) + Held(Block(l.entries, f, b), before), m.d, m'.d)
  }

  lemma PartHeld(l: Layout, f: File, lens: seq<nat>, b: nat)
    requires ValidLayout(l) && Shaped(l, f, lens)
    ensures Held(Block(l.entries, f, b), RunLen(l.g.frag, lens, b)) <= FileHeld(l.g.frag, f, lens, true)
    ensures FileHeld(l.g.frag, f, lens, false) + Held(Block(l.entries, f, b), RunLen(l.g.frag, lens, b)) <= FileHeld(l.g.frag, f, lens, true)
  {
    hide Held, FileHeld, RunLen, Block;
    forall y: nat
      ensures (FileHeld(l.g.frag, f, lens, false) + Held(Block(l.entries, f, b), RunLen(l.g.frag, lens, b)))[y]
           <= FileHeld(l.g.frag, f, lens, true)[y]
    {
      BlocksDistinct(l, f, lens, b, b + 1, y);
    }
  }

  /** Bytes of a run that lies outside everything written. */
  lemma BytesKept(fs: nat, d: seq<Byte>, d': seq<Byte>, x: nat, n: nat, s: seq<Byte>)
    requires 0 < fs && |d'| == |d| && |s| <= Times(fs, n) && HasBytes(d, Times(fs, x), s)
    requires forall y: nat | x <= y < x + n :: SameFrag(fs, d, d', y)
    ensures HasBytes(d', Times(fs, x), s)
  {
    RunSame(fs, d, d', x, n);
    var p := Times(fs, x);
    assert d'[p..p + |s|] == d[p..p + |s|];
  }

  // ledger of the three steps: acquire, store, give up the old run

  lemma GrowLedger(free: iset<nat>, own: multiset<nat>, free1: iset<nat>, a: multiset<nat>, free3: iset<nat>, extra: multiset<nat>,
      own': multiset<nat>, gone: multiset<nat>)
    requires Conserved(free, own, free1, own + a) && Conserved(free1, multiset{}, free3, extra)
    requires own' + gone == own + (a + extra)
    ensures Conserved(free, own, free3, own' + gone)
  {
    forall y: nat ensures Holders(free3, own' + gone, y) == Holders(free, own, y) {
      assert Holders(free1, own + a, y) == Holders(free, own, y);
      assert Holders(free3, extra, y) == Holders(free1, multiset{}, y);
      assert (own' + gone)[y] == (own + (a + extra))[y];
    }
  }

  /** The acquired run meets no index block, is not free, and was free or the block's own before. */
  lemma RunClear(l: Layout, m: Image, m1: Image, f: File, lens: seq<nat>, b: nat, x: nat, before: nat, a: nat, after: nat, y: nat)
    requires ValidLayout(l) && Good(l, m, f, lens) && x == Block(l.entries, f, b)
    requires if x == 0 then before == 0 else before == RunLen(l.g.frag, lens, b)
    requires Acquired(m, m1, FileHeld(l.g.frag, f, lens, true), x, before, a, after) && a <= y < a + after
    ensures FileHeld(l.g.frag, f, lens, false)[y] == 0 && y !in m1.free
    ensures y in m.free || Held(x, before)[y] > 0
  {
    hide FileHeld, Sound, Block, Union;
    var own := FileHeld(l.g.frag, f, lens, true);
    PartHeld(l, f, lens, b);
    assert (FileHeld(l.g.frag, f, lens, false) + Held(x, RunLen(l.g.frag, lens, b)))[y] <= own[y];
    ExclusiveAt(m.free, own, y);
    if a == x {
      assert Holders(m1.free, own + Run(x + before, after - before), y) == Holders(m.free, own, y);
    } else {
      assert Holders(m1.free, own + Run(a, after), y) == Holders(m.free, own, y);
    }
  }

  lemma FreeShrinks(m: Image, m1: Image, own: multiset<nat>, x: nat, before: nat, a: nat, after: nat)
    requires Acquired(m, m1, own, x, before, a, after) && Exclusive(m.free, own)
    ensures Exclusive(m1.free, own) && forall y: nat | y in m1.free :: y in m.free
  {
    var more := if a == x then Run(x + before, after - before) else Run(a, after);
    forall y: nat ensures Holders(m1.free, own, y) <= 1 && (y in m1.free ==> y in m.free) {
      assert Holders(m1.free, own + more, y) == Holders(m.free, own, y);
      ExclusiveAt(m.free, own, y);
    }
  }

  /** Writing the acquired run leaves the file's pointers as they were. */
  lemma WriteKeepsFile(l: Layout, m: Image, m1: Image, d2: seq<Byte>, db: seq<nat>, ib: seq<nat>, lens: seq<nat>,
      b: nat, x: nat, before: nat, a: nat, after: nat)
    requires ValidLayout(l) && OnDisk(l, m.d) && |ib| == 3 && Good(l, m, FileOf(l, m.d, db, ib), lens)
    requires x == Block(l.entries, FileOf(l, m.d, db, ib), b)
    requires if x == 0 then before == 0 else before == RunLen(l.g.frag, lens, b)
    requires Acquired(m, m1, FileHeld(l.g.frag, FileOf(l, m.d, db, ib), lens, true), x, before, a, after)
    requires SameElsewhere(l.fs, m.d, d2, a, after)
    ensures OnDisk(l, d2) && FileOf(l, d2, db, ib) == FileOf(l, m.d, db, ib)
    ensures Good(l, Image(d2, m1.free), FileOf(l, m.d, db, ib), lens)
  {
    hide FileHeld, Union, Owned, Load, Sound, Exclusive, Acquired, SameFrag;
    var f := FileOf(l, m.d, db, ib);
    FreeShrinks(m, m1, FileHeld(l.g.frag, f, lens, true), x, before, a, after);
    forall s | 0 <= s < 3 ensures Load(l, d2, ib[s], s + 1) == f.trees[s] {
      forall y | Owned(l.g.frag, f.trees[s], false)[y] > 0 ensures SameFrag(l.fs, m.d, d2, y) {
        IndexInFile(l, f, lens, s, y);
        if a <= y < a + after { RunClear(l, m, m1, f, lens, b, x, before, a, after, y); }
      }
      LoadFrame(l, m.d, d2, ib[s], s + 1);
    }
    assert FileOf(l, d2, db, ib).trees == f.trees;
  }

  lemma IndexInFile(l: Layout, f: File, lens: seq<nat>, s: nat, y: nat)
    requires |f.db| == |lens| == DIRECT && |f.trees| == 3 && s < 3 && Owned(l.g.frag, f.trees[s], false)[y] > 0
    ensures FileHeld(l.g.frag, f, lens, false)[y] > 0
  {
    UnionPair(FileParts(l.g.frag, f, lens, false), 12 + s, 12 + s, y);
  }

  /** The bytes after all three writes. */
  lemma GrowOnDisk(l: Layout, m: Image, m1: Image, m2: Image, m3: Image, f: File, f': File, lens: seq<nat>,
      b: nat, x: nat, before: nat, a: nat, after: nat, buf: seq<Byte>, extra: seq<nat>)
    requires ValidLayout(l) && Good(l, m, f, lens) && x == Block(l.entries, f, b)
    requires if x == 0 then before == 0 else before == RunLen(l.g.frag, lens, b)
    requires Acquired(m, m1, FileHeld(l.g.frag, f, lens, true), x, before, a, after) && |buf| == Times(l.fs, after)
    requires m2.free == m1.free && SameElsewhere(l.fs, m.d, m2.d, a, after) && HasBytes(m2.d, Times(l.fs, a), buf)
    requires SetAt(l, m2, m3, f, f', lens, b, a, extra)
    ensures HasBytes(m3.d, Times(l.fs, a), buf)
    ensures Untouched(l.fs, m.free, FileHeld(l.g.frag, f, lens, false) + Held(x, before), m.d, m3.d)
  {
    hide FileHeld, Union, Sound, Exclusive, Acquired, SameFrag, Block, Held, Conserved, WithBlock, MissingIn;
    var index := FileHeld(l.g.frag, f, lens, false);
    forall y: nat | a <= y < a + after ensures SameFrag(l.fs, m2.d, m3.d, y) {
      RunClear(l, m, m1, f, lens, b, x, before, a, after, y);
      assert Holders(m2.free, index, y) == 0;
    }
    BytesKept(l.fs, m2.d, m3.d, a, after, buf);
    FreeShrinks(m, m1, FileHeld(l.g.frag, f, lens, true), x, before, a, after);
    forall y: nat | Holders(m.free, index + Held(x, before), y) == 0 ensures SameFrag(l.fs, m.d, m3.d, y) {
      if a <= y < a + after { RunClear(l, m, m1, f, lens, b, x, before, a, after, y); }
      assert Holders(m2.free, index, y) == 0;
      SameTwice(l.fs, m.d, m2.d, m3.d, y);
    }
  }

  /** Who holds what after the pointer is stored, with the old run still held if the block moved. */
  lemma GrowOwned(l: Layout, m: Image, m1: Image, m2: Image, m3: Image, f: File, f': File, lens: seq<nat>,
      b: nat, x: nat, before: nat, a: nat, after: nat, extra: seq<nat>)
    requires ValidLayout(l) && Good(l, m, f, lens) && x == Block(l.entries, f, b)
    requires if x == 0 then before == 0 else before == RunLen(l.g.frag, lens, b)
    requires Acquired(m, m1, FileHeld(l.g.frag, f, lens, true), x, before, a, after)
    requires m2.free == m1.free && SetAt(l, m2, m3, f, f', lens, b, a, extra) && RunOk(l, a, after)
    requires DIRECT <= b ==> after == l.g.frag
    ensures Shaped(l, f', NewLens(lens, b, after))
    ensures var gone := if a == x then multiset{} else Held(x, before);
      && Conserved(m.free, FileHeld(l.g.frag, f, lens, true), m3.free, FileHeld(l.g.frag, f', NewLens(lens, b, after), true) + gone)
      && Exclusive(m3.free, FileHeld(l.g.frag, f', NewLens(lens, b, after), true) + gone)
    ensures |FileHeld(l.g.frag, f', NewLens(lens, b, after), true)| + before
         == |FileHeld(l.g.frag, f, lens, true)| + after + |Blocks(l.g.frag, extra)|
  {
    hide FileHeld, Union, Sound, Exclusive, SameFrag, Block, Conserved, WithBlock, MissingIn, Untouched, Blocks, Held, Run;
    var lens' := NewLens(lens, b, after);
    WithBlockShaped(l, f, lens, b, a, after, extra);
    var own, own' := FileHeld(l.g.frag, f, lens, true), FileHeld(l.g.frag, f', lens', true);
    var blocks := Blocks(l.g.frag, extra);
    WithBlockHeld(l, f, lens, b, a, after, extra);
    HeldSize(x, RunLen(l.g.frag, lens, b), before);
    HeldSize(a, after, after);
    var was := Held(x, before);
    SumSizes(own', was, own, Held(a, after), blocks);
    if a == x {
      var more := Run(x + before, after - before);
      HeldSplit(x, before, after);
      CancelHeld(own, own', was, more, blocks);
      GrowLedger(m.free, own, m1.free, more, m3.free, blocks, own', multiset{});
      StillExclusive(m.free, own, m3.free, own' + multiset{});
    } else {
      RunIsHeld(a, after);
      GrowLedger(m.free, own, m1.free, Run(a, after), m3.free, blocks, own', was);
      StillExclusive(m.free, own, m3.free, own' + was);
    }
  }

  lemma HeldSize(x: nat, len: nat, n: nat)
    requires if x == 0 then n == 0 || n == len else n == len
    ensures Held(x, len) == Held(x, n) && |Held(x, n)| == if x == 0 then 0 else n
  {
  }

  lemma RunIsHeld(x: nat, n: nat)
    requires x != 0
    ensures Held(x, n) == Run(x, n)
  {
  }

  lemma HeldSplit(x: nat, n: nat, k: nat)
    requires x != 0 && n <= k
    ensures Held(x, k) == Held(x, n) + Run(x + n, k - n)
  {
  }

  lemma SumSizes(a: multiset<nat>, b: multiset<nat>, c: multiset<nat>, d: multiset<nat>, e: multiset<nat>)
    requires a + b == c + (d + e)
    ensures |a| + |b| == |c| + |d| + |e|
  {
    assert |a + b| == |c + (d + e)|;
  }

  lemma CancelHeld(own: multiset<nat>, own': multiset<nat>, was: multiset<nat>, more: multiset<nat>, blocks: multiset<nat>)
    requires own' + was == own + ((was + more) + blocks)
    ensures own' + multiset{} == own + (more + blocks)
  {
    forall y: nat ensures (own' + multiset{})[y] == (own + (more + blocks))[y] {
      assert (own' + was)[y] == (own + ((was + more) + blocks))[y];
    }
  }

  lemma FragsMonotone(l: Layout, small: nat, large: nat, b: nat)
    requires ValidLayout(l) && small <= large
    ensures FileFrags(l, small, b) <= FileFrags(l, large, b)
  {
    var base := Times(BlockBytes(l), b);
    if base < small && b < DIRECT && large - base < BlockBytes(l) {
      var p, q := Quot(l.fs, small - base + l.fs - 1), Quot(l.fs, large - base + l.fs - 1);
      if q < p { TimesMonotone(l.fs, q, p); }
    }
  }

  /** How many old bytes a grown block keeps. */
  function Kept(l: Layout, x: nat, size: nat, b: nat): (k: nat)
    requires ValidLayout(l)
    ensures k <= Times(l.fs, FileFrags(l, size, b)) && (x == 0 ==> k == 0)
  {
    if x == 0 || size <= Times(BlockBytes(l), b) then 0
    else
      var bytes := size - Times(BlockBytes(l), b);
      var whole := Times(l.fs, FileFrags(l, size, b));
      if bytes > whole then whole else bytes
  }

  /** The bytes a grown block ends up with: the old ones and zeros. */
  function GrownBytes(l: Layout, d: seq<Byte>, x: nat, keep: nat, after: nat): (s: seq<Byte>)
    requires keep <= Times(l.fs, after) && Times(l.fs, x) + keep <= |d|
    ensures |s| == Times(l.fs, after)
  {
    d[Times(l.fs, x)..Times(l.fs, x) + keep] + Zeros(Times(l.fs, after) - keep)
  }

  lemma KeptFits(l: Layout, d: seq<Byte>, x: nat, before: nat, after: nat, keep: nat)
    requires ValidLayout(l) && OnDisk(l, d) && before <= after && keep <= Times(l.fs, before)
    requires if x == 0 then keep == 0 else RunOk(l, x, before)
    ensures keep <= Times(l.fs, after) && Times(l.fs, x) + keep <= |d|
  {
    TimesAdd(l.fs, before, after - before);
    if x == 0 {
      assert Times(l.fs, 0) == 0;
    } else {
      InsideSlice(l, x, before);
      RunFits(l, x, before);
    }
  }

  method WriteRun(v: Volume, a: nat, n: nat, buf: seq<Byte>)
    requires v.Valid() && RunOk(v.Lay(), a, n) && |buf| == Times(v.fsize, n)
    modifies v`data
    ensures v.Valid() && SameElsewhere(v.fsize, old(v.data), v.data, a, n) && HasBytes(v.data, Times(v.fsize, a), buf)
  {
    hide CountsValid, SameFrag;
    InsideSlice(v.Lay(), a, n);
    RunFits(v.Lay(), a, n);
    PutElsewhere(v.fsize, v.data, a, n, Times(v.fsize, a), buf);
    var p := Mul(v.fsize, a);
    PutHas(v.data, p, buf);
    v.data := Put(v.data, p, buf);
  }

  lemma PutHas(d: seq<Byte>, p: nat, s: seq<Byte>)
    requires p + |s| <= |d|
    ensures HasBytes(Put(d, p, s), p, s)
  {
    assert Put(d, p, s)[p..p + |s|] == s;
  }

  lemma BlocksUpdate(spf: nat, own: nat, own': nat, added: nat)
    requires own' == own + added
    ensures Times(spf, own') == Times(spf, own) + Times(spf, added)
  {
    TimesAdd(spf, own, added);
  }

  ghost function NodeFile(v: Volume, node: Node): File
    requires v.Valid() && |node.ib| == 3
    reads v, node
  {
    FileOf(v.Lay(), v.data, node.db, node.ib)
  }

  method Resolved(v: Volume, node: Node, b: nat, ghost lens: seq<nat>) returns (r: Result<nat>)
    requires v.Valid() && |node.ib| == 3 && Shaped(v.Lay(), NodeFile(v, node), lens)
    ensures |node.db| == DIRECT
    ensures r == if Where(v.entries, b).Beyond? then Err(Efbig) else Ok(Block(v.entries, NodeFile(v, node), b))
  {
    hide CountsValid, Sound, Load;
    ResolveExact(v.Lay(), v.data, node.db, node.ib, lens, b);
    r := ResolveBlock(v.Lay(), v.data, node.db, node.ib, b);
  }

  /** The volume affords what filling block `b` takes. */
  ghost predicate CanFill(v: Volume, node: Node, s: nat, s': nat, b: nat)
    requires v.Valid() && |node.ib| == 3 && |node.db| == DIRECT
    reads v, node
  {
    v.Affords(OneBlocks(v.Lay(), NodeFile(v, node), s, s', b), OneFrags(v.Lay(), NodeFile(v, node), s, s', b))
  }

  /** No more than that was taken, and the index blocks on the way to `b` are there. */
  twostate predicate Filled(v: Volume, node: Node, s: nat, s': nat, b: nat)
    requires old(v.Valid()) && old(|node.ib| == 3 && |node.db| == DIRECT) && v.Valid() && |node.ib| == 3
    reads v, node
  {
    && v.Spent(old(OneBlocks(v.Lay(), NodeFile(v, node), s, s', b)), old(OneFrags(v.Lay(), NodeFile(v, node), s, s', b)))
    && NodesLess(v.entries, old(NodeFile(v, node)), NodeFile(v, node), old(FileNodes(v.entries, NodeFile(v, node), b)))
  }

  /** The second half of `grow_block`: the run `[a, a + after)` is written and becomes block `b`. */
  method PlaceRun(v: Volume, node: Node, b: nat, x: nat, before: nat, a: nat, after: nat, preferred: nat,
      ghost m: Image, ghost m1: Image, ghost buf: seq<Byte>, ghost lens: seq<nat>) returns (r: Option<Errno>)
    requires v.Valid() && |node.ib| == 3 && Good(v.Lay(), Img(v), NodeFile(v, node), lens) && Good(v.Lay(), m, NodeFile(v, node), lens)
    requires x == Block(v.entries, NodeFile(v, node), b) && RunOk(v.Lay(), a, after) && (DIRECT <= b ==> after == v.g.frag)
    requires if x == 0 then before == 0 else RunOk(v.Lay(), x, before) && before == RunLen(v.g.frag, lens, b)
    requires Acquired(m, m1, FileHeld(v.g.frag, NodeFile(v, node), lens, true), x, before, a, after)
    requires |buf| == Times(v.fsize, after) && Img(v).free == m1.free
    requires SameElsewhere(v.fsize, m.d, v.data, a, after) && HasBytes(v.data, Times(v.fsize, a), buf)
    modifies v, node`db, node`ib, node`blocks
    ensures v.Valid() && |node.ib| == 3
    ensures Where(v.entries, b).Beyond? ==> r == Some(Efbig)
    ensures !Where(v.entries, b).Beyond? && r.Some? ==>
      v.Refusal(r.value, IfAny(v.g.frag, old(MissingIn(v.entries, NodeFile(v, node), b))))
    ensures !Where(v.entries, b).Beyond? && old(v.AffordsBlocks(MissingIn(v.entries, NodeFile(v, node), b))) ==> r.None?
    ensures r.None? ==>
      && v.SpentBlocks(old(MissingIn(v.entries, NodeFile(v, node), b)))
      && NodesLess(v.entries, old(NodeFile(v, node)), NodeFile(v, node), old(FileNodes(v.entries, NodeFile(v, node), b)))
    ensures r.None? ==> Grown(v.Lay(), m, Img(v), old(NodeFile(v, node)), NodeFile(v, node), lens, b, before, after, buf)
    ensures r.None? ==>
      node.blocks + Times(v.spf, |FileHeld(v.g.frag, old(NodeFile(v, node)), lens, true)|)
      == old(node.blocks) + Times(v.spf, |FileHeld(v.g.frag, NodeFile(v, node), NewLens(lens, b, after), true)|)
  {
    hide CountsValid, Sound, Load, IsFree, Union, FileHeld, SameFrag, Conserved, Exclusive, Untouched, Block, Held, Run, Put,
      Kept, GrownBytes, Times, Quot, Span, SameElsewhere, HasBytes, Blocks, Route, FileNodes, NodesLess, MissingIn, Missing, Where;
    ghost var l, f, m2 := v.Lay(), NodeFile(v, node), Img(v);
    ghost var own := FileHeld(l.g.frag, f, lens, true);
    AcquiredGrows(m, m1, own, x, before, a, after);
    RunBelow(l, a, after);
    var metadata; ghost var extra;
    r, metadata, extra := SetBlock(v, node, b, a, preferred, 0, lens);
    if r.Some? {
      return;
    }
    ghost var m3, f' := Img(v), NodeFile(v, node);
    GrowOnDisk(l, m, m1, m2, m3, f, f', lens, b, x, before, a, after, buf, extra);
    GrowOwned(l, m, m1, m2, m3, f, f', lens, b, x, before, a, after, extra);
    WithBlockAll(l, f, lens, b, a, extra);
    WithBlockNodes(l, f, lens, b, a, extra);
    ghost var own' := FileHeld(l.g.frag, f', NewLens(lens, b, after), true);
    BlocksUpdate(v.spf, |own|, |own'|, after - before + metadata);
    GiveUpOld(v, x, before, a, m.free, own, own');
    var more := Mul(v.spf, after - before + metadata);
    node.blocks := node.blocks + more;
  }

  lemma AcquiredGrows(m: Image, m1: Image, own: multiset<nat>, x: nat, before: nat, a: nat, after: nat)
    requires Acquired(m, m1, own, x, before, a, after)
    ensures before <= after && a != 0
  {
  }

  /** `grow_block`. */
  method GrowBlock(v: Volume, node: Node, b: nat, oldSize: nat, newSize: nat, preferred: nat, ghost lens: seq<nat>)
    returns (r: Option<Errno>)
    requires v.Valid() && |node.ib| == 3 && Good(v.Lay(), Img(v), NodeFile(v, node), lens)
    requires oldSize <= newSize && Times(BlockBytes(v.Lay()), b) < newSize
    requires Block(v.entries, NodeFile(v, node), b) != 0 ==> RunLen(v.g.frag, lens, b) == FileFrags(v.Lay(), oldSize, b)
    modifies v, node`db, node`ib, node`blocks
    ensures v.Valid() && |node.ib| == 3
    ensures Where(v.entries, b).Beyond? ==> r == Some(Efbig)
    ensures !Where(v.entries, b).Beyond? && r.Some? ==> v.Refusal(r.value, old(Lengths(v.Lay(), NodeFile(v, node), oldSize, newSize, b)))
    ensures !Where(v.entries, b).Beyond? && old(CanFill(v, node, oldSize, newSize, b)) ==> r.None?
    ensures r.None? ==> Filled(v, node, oldSize, newSize, b)
    ensures r.None? ==>
      var l, x := v.Lay(), old(Block(v.entries, NodeFile(v, node), b));
      var before, after := if x == 0 then 0 else FileFrags(l, oldSize, b), FileFrags(l, newSize, b);
      var keep := Kept(l, x, oldSize, b);
      && keep <= Times(l.fs, after) && Times(l.fs, x) + keep <= |old(v.data)|
      && Grown(l, old(Img(v)), Img(v), old(NodeFile(v, node)), NodeFile(v, node), lens, b, before, after,
               GrownBytes(l, old(v.data), x, keep, after))
      && node.blocks + Times(v.spf, |FileHeld(l.g.frag, old(NodeFile(v, node)), lens, true)|)
         == old(node.blocks) + Times(v.spf, |FileHeld(l.g.frag, NodeFile(v, node), NewLens(lens, b, after), true)|)
  {
    hide CountsValid, Sound, Load, IsFree, Union, FileHeld, SameFrag, Conserved, Exclusive, Untouched, Block, Held, Run, Put,
      Kept, GrownBytes, Times, Quot, Span, SameElsewhere, HasBytes, Blocks, Route, FileNodes, NodesLess, MissingIn, Missing, FileFrags, Where;
    ghost var l, m, f := v.Lay(), Img(v), NodeFile(v, node);
    FileNodesSize(v.entries, f, b);
    ghost var own := FileHeld(l.g.frag, f, lens, true);
    var found := Resolved(v, node, b, lens);
    if found.Err? {
      return Some(found.error);
    }
    var x := found.value;
    var before, after := if x == 0 then 0 else FileFrags(v.Lay(), oldSize, b), FileFrags(v.Lay(), newSize, b);
    FragsMonotone(l, oldSize, newSize, b);
    if x != 0 { BlockRun(l, f, lens, b); }
    var keep := Kept(v.Lay(), x, oldSize, b);
    KeptFits(l, v.data, x, before, after, keep);
    var buf := GrownBytes(v.Lay(), v.data, x, keep, after);
    OldHeld(l, f, lens, b, before);
    var a;
    r, a := AcquireRun(v, x, before, after, preferred, own);
    if r.Some? {
      AskedFor(l, f, oldSize, newSize, b, x, before, after);
      v.RefusalMore(r.value, {after}, Lengths(l, f, oldSize, newSize, b));
      return;
    }
    ghost var m1 := Img(v);
    WriteRun(v, a, after, buf);
    WriteKeepsFile(l, m, m1, v.data, node.db, node.ib, lens, b, x, before, a, after);
    WholeAfter(l, newSize, b);
    r := PlaceRun(v, node, b, x, before, a, after, preferred, m, m1, buf, lens);
    if r.Some? && !Where(v.entries, b).Beyond? {
      v.RefusalMore(r.value, IfAny(l.g.frag, |FileNodes(l.entries, f, b)|), Lengths(l, f, oldSize, newSize, b));
    }
  }

  /** A longer run is one of the lengths asked for. */
  lemma AskedFor(l: Layout, f: File, s: nat, s': nat, b: nat, x: nat, before: nat, after: nat)
    requires ValidLayout(l) && |f.db| == DIRECT && |f.trees| == 3 && x == Block(l.entries, f, b)
    requires before == (if x == 0 then 0 else FileFrags(l, s, b)) && after == FileFrags(l, s', b) && before < after
    ensures {after} <= Lengths(l, f, s, s', b)
  {
    hide Block, FileFrags, FileNodes;
  }

  /** The run behind a file's block. */
  lemma BlockRun(l: Layout, f: File, lens: seq<nat>, b: nat)
    requires ValidLayout(l) && Shaped(l, f, lens) && Block(l.entries, f, b) != 0
    ensures RunOk(l, Block(l.entries, f, b), RunLen(l.g.frag, lens, b))
  {
    var w := Where(l.entries, b);
    if w.Indirect? {
      LeafRun(l, f.trees[w.slot], w.slot + 1, w.idx);
    }
  }

  lemma {:induction false} LeafRun(l: Layout, t: Tree, level: nat, idx: nat)
    requires ValidLayout(l) && Sound(l, t, level) && idx < Span(l.entries, level) && Get(l.entries, t, level, idx) != 0
    ensures BlockOk(l, Get(l.entries, t, level, idx))
    decreases level
  {
    if t.Index? {
      LeafRun(l, t.kids[Slot(l.entries, level, idx)], level - 1, Rest(l.entries, level, idx));
    }
  }

  lemma OldHeld(l: Layout, f: File, lens: seq<nat>, b: nat, before: nat)
    requires ValidLayout(l) && Shaped(l, f, lens)
    requires Block(l.entries, f, b) != 0 ==> before == RunLen(l.g.frag, lens, b)
    ensures Held(Block(l.entries, f, b), before) <= FileHeld(l.g.frag, f, lens, true)
  {
    hide Block, FileHeld;
    PartHeld(l, f, lens, b);
  }

  lemma RunBelow(l: Layout, a: nat, n: nat)
    requires ValidLayout(l) && RunOk(l, a, n)
    ensures 0 < a < 0x1_0000_0000
  {
    InsideSlice(l, a, n);
  }

  lemma WithBlockAll(l: Layout, f: File, lens: seq<nat>, b: nat, leaf: nat, extra: seq<nat>)
    requires ValidLayout(l) && Shaped(l, f, lens) && !Where(l.entries, b).Beyond?
    requires |extra| == MissingIn(l.entries, f, b) && forall x | x in extra :: BlockOk(l, x)
    ensures var f' := WithBlock(l.entries, f, b, leaf, extra);
      && |f'.db| == DIRECT && |f'.trees| == 3
      && Block(l.entries, f', b) == leaf
      && forall j: nat | j != b :: Block(l.entries, f', j) == Block(l.entries, f, j)
  {
    hide Block, Sound, Graft, MissingIn;
    var f' := WithBlock(l.entries, f, b, leaf, extra);
    WithBlockGet(l, f, lens, b, leaf, extra, b);
    forall j: nat | j != b ensures Block(l.entries, f', j) == Block(l.entries, f, j) {
      WithBlockGet(l, f, lens, b, leaf, extra, j);
    }
  }

  lemma WithBlockNodes(l: Layout, f: File, lens: seq<nat>, b: nat, leaf: nat, extra: seq<nat>)
    requires ValidLayout(l) && Shaped(l, f, lens) && !Where(l.entries, b).Beyond?
    requires |extra| == MissingIn(l.entries, f, b) && forall x | x in extra :: BlockOk(l, x)
    ensures var f' := WithBlock(l.entries, f, b, leaf, extra);
      |f'.trees| == 3 && NodesLess(l.entries, f, f', FileNodes(l.entries, f, b))
  {
    hide Sound, Graft, MissingIn, FileNodes;
    forall j: nat
      ensures var f' := WithBlock(l.entries, f, b, leaf, extra);
        |f'.trees| == 3 && FileNodes(l.entries, f', j) == FileNodes(l.entries, f, j) - FileNodes(l.entries, f, b)
    {
      FileNodesWith(l, f, lens, b, leaf, extra, j);
    }
    FileNodesWith(l, f, lens, b, leaf, extra, b);
  }

  lemma WholeAfter(l: Layout, size: nat, b: nat)
    requires ValidLayout(l) && Times(BlockBytes(l), b) < size
    ensures DIRECT <= b ==> FileFrags(l, size, b) == l.g.frag
  {
  }

  /** A block that moved frees its old run. */
  method GiveUpOld(v: Volume, x: nat, before: nat, a: nat, ghost free: iset<nat>, ghost own: multiset<nat>, ghost own': multiset<nat>)
    requires v.Valid() && (x != 0 && a != x ==> RunOk(v.Lay(), x, before)) && (x == 0 ==> before == 0)
    requires var gone := if a == x then multiset{} else Held(x, before);
      Conserved(free, own, v.Free(), own' + gone) && Exclusive(v.Free(), own' + gone)
    modifies v`cgs, v`csum, v`total
    ensures v.Valid() && Conserved(free, own, v.Free(), own') && Exclusive(v.Free(), own') && v.Spent(0, 0)
  {
    hide CountsValid, IsFree, Conserved, Exclusive, Held, Run;
    NothingGone(own');
    if x != 0 && a != x {
      HeldIsRun(x, before, own');
      ghost var free3 := v.Free();
      ReleaseRun(v, x, before, own');
      HeldTwice(free, own, free3, own' + Run(x, before), v.Free(), own');
      StillExclusive(free3, own' + Run(x, before), v.Free(), own');
    }
  }

  lemma HeldIsRun(x: nat, n: nat, own: multiset<nat>)
    requires x != 0
    ensures own + Held(x, n) == own + Run(x, n)
  {
  }

  lemma NothingGone(own: multiset<nat>)
    ensures own + multiset{} == own && own + Held(0, 0) == own
  {
  }
}
