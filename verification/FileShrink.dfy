/** The shrinking half of a resize: direct runs are cut, trees pruned, and the tail is zeroed. */
module FileShrink {
  import opened Scale
  import opened Ledger
  import opened Options
  import opened Volume
  import opened BlockTree
  import opened IndirectBlocks
  import opened Files
  import opened Pruning
  import opened Resolve
  import opened FileMutate
  import opened FileResize

  /** The direct pointer of block `i` at the smaller size. */
  function CutPointer(l: Layout, size: nat, x: nat, i: nat): nat
    requires ValidLayout(l)
  {
    if FileFrags(l, size, i) == 0 then 0 else x
  }

  function CutTree(l: Layout, size: nat, t: Tree, slot: nat): Tree
    requires ValidLayout(l)
  {
    Prune(l.entries, t, slot + 1, Base(l.entries, slot), Extent(l, size))
  }

  /** The file with the first `k` of its fifteen pointers cut to the smaller size. */
  function Cut(l: Layout, f: File, size: nat, k: nat): (g: File)
    requires ValidLayout(l) && |f.db| == DIRECT && |f.trees| == 3 && k <= 15
    ensures |g.db| == DIRECT && |g.trees| == 3
  {
    File(seq(DIRECT, i requires 0 <= i < DIRECT => if i < k then CutPointer(l, size, f.db[i], i) else f.db[i]),
         seq(3, s requires 0 <= s < 3 => if DIRECT + s < k then CutTree(l, size, f.trees[s], s) else f.trees[s]))
  }

  function CutLens(l: Layout, s: nat, size: nat, k: nat): (lens: seq<nat>)
    requires ValidLayout(l)
    ensures |lens| == DIRECT
  {
    seq(DIRECT, i requires 0 <= i < DIRECT => if i < k then FileFrags(l, size, i) else FileFrags(l, s, i))
  }

  /** Exactly the blocks past the smaller size disappear. */
  lemma CutGet(l: Layout, f: File, lens: seq<nat>, size: nat, b: nat)
    requires ValidLayout(l) && Shaped(l, f, lens)
    ensures Block(l.entries, Cut(l, f, size, 15), b) == if Extent(l, size) <= b then 0 else Block(l.entries, f, b)
  {
    hide Extent, Get, Prune, FileFrags, Sound, Base;
    ExtentExact(l, size, b);
    WhereExact(l.entries, b);
    var w := Where(l.entries, b);
    if w.Indirect? {
      assert Sound(l, f.trees[w.slot], w.slot + 1);
      PruneGet(l, f.trees[w.slot], w.slot + 1, Base(l.entries, w.slot), Extent(l, size), w.idx);
    }
  }

  lemma CutStart(l: Layout, f: File, s: nat, size: nat)
    requires ValidLayout(l) && |f.db| == DIRECT && |f.trees| == 3
    ensures Cut(l, f, size, 0) == f && CutLens(l, s, size, 0) == Lens(l, s)
  {
    assert Cut(l, f, size, 0).db == f.db && Cut(l, f, size, 0).trees == f.trees;
  }

  lemma CutStep(l: Layout, f: File, s: nat, size: nat, k: nat)
    requires ValidLayout(l) && |f.db| == DIRECT && |f.trees| == 3 && k < 15
    ensures var g := Cut(l, f, size, k);
      Cut(l, f, size, k + 1) == if k < DIRECT then g.(db := g.db[k := CutPointer(l, size, f.db[k], k)])
                                else g.(trees := g.trees[k - DIRECT := CutTree(l, size, f.trees[k - DIRECT], k - DIRECT)])
    ensures CutLens(l, s, size, k + 1) == if k < DIRECT then CutLens(l, s, size, k)[k := FileFrags(l, size, k)] else CutLens(l, s, size, k)
    ensures k < DIRECT ==> Cut(l, f, size, k).db[k] == f.db[k] && CutLens(l, s, size, k)[k] == FileFrags(l, s, k)
    ensures DIRECT <= k ==> Cut(l, f, size, k).trees[k - DIRECT] == f.trees[k - DIRECT]
  {
    var g, h := Cut(l, f, size, k), Cut(l, f, size, k + 1);
    if k < DIRECT {
      assert h.db == g.db[k := CutPointer(l, size, f.db[k], k)] && h.trees == g.trees;
    } else {
      assert h.db == g.db && h.trees == g.trees[k - DIRECT := CutTree(l, size, f.trees[k - DIRECT], k - DIRECT)];
    }
  }

  /** `k` pointers done: the file is cut so far, what it gave up is free and counted, and only index
      blocks were written. */
  ghost predicate CutTo(l: Layout, m: Image, m': Image, f: File, g: File, s: nat, size: nat, k: nat, released: int)
    requires ValidLayout(l) && |f.db| == DIRECT && |f.trees| == 3 && k <= 15
  {
    var lens := CutLens(l, s, size, k);
    && g == Cut(l, f, size, k) && Good(l, m', g, lens)
    && Conserved(m.free, FileHeld(l.g.frag, f, Lens(l, s), true), m'.free, FileHeld(l.g.frag, g, lens, true))
    && released == |FileHeld(l.g.frag, f, Lens(l, s), true)| - |FileHeld(l.g.frag, g, lens, true)|
    && OnlyWrote(l.fs, FileHeld(l.g.frag, f, Lens(l, s), false), m.d, m'.d)
  }

  /** One direct pointer. */
  ghost predicate RunCut(free: iset<nat>, free': iset<nat>, x: nat, before: nat, x': nat, after: nat) {
    Conserved(free, Held(x, before), free', Held(x', after))
  }

  lemma CutDirectParts(frag: nat, f: File, lens: seq<nat>, k: nat, x: nat, n: nat)
    requires |f.db| == |lens| == DIRECT && |f.trees| == 3 && k < DIRECT
    ensures FileParts(frag, f.(db := f.db[k := x]), lens[k := n], true) == FileParts(frag, f, lens, true)[k := Held(x, n)]
    ensures FileParts(frag, f, lens, true)[k] == Held(f.db[k], lens[k])
  {
    hide Owned, Held;
  }

  lemma CutTreeParts(frag: nat, f: File, lens: seq<nat>, s: nat, t: Tree)
    requires |f.db| == |lens| == DIRECT && |f.trees| == 3 && s < 3
    ensures FileParts(frag, f.(trees := f.trees[s := t]), lens, true) == FileParts(frag, f, lens, true)[12 + s := Owned(frag, t, true)]
    ensures FileParts(frag, f, lens, true)[12 + s] == Owned(frag, f.trees[s], true)
  {
    hide Owned, Held;
  }

  /** The ledger after one more pointer is cut. */
  lemma CutLedger(free: iset<nat>, own: multiset<nat>, free1: iset<nat>, ms: seq<multiset<nat>>, free2: iset<nat>, k: nat, m: multiset<nat>, released: int)
    requires k < |ms| && Conserved(free, own, free1, Union(ms)) && Conserved(free1, ms[k], free2, m) && Exclusive(free1, Union(ms))
    requires released == |own| - |Union(ms)|
    ensures Conserved(free, own, free2, Union(ms[k := m])) && Exclusive(free2, Union(ms[k := m]))
    ensures released + |ms[k]| - |m| == |own| - |Union(ms[k := m])|
  {
    hide Conserved, Exclusive, Union;
    UnionStep(ms, k, m, free1, free2);
    HeldTwice(free, own, free1, Union(ms), free2, Union(ms[k := m]));
    StillExclusive(free1, Union(ms), free2, Union(ms[k := m]));
  }

  lemma CutDirect(l: Layout, m: Image, m1: Image, m2: Image, f: File, g: File, s: nat, size: nat, k: nat, released: int)
    requires ValidLayout(l) && Shaped(l, f, Lens(l, s)) && k < DIRECT && size <= s
    requires CutTo(l, m, m1, f, g, s, size, k, released) && m2.d == m1.d
    requires RunCut(m1.free, m2.free, f.db[k], FileFrags(l, s, k), CutPointer(l, size, f.db[k], k), FileFrags(l, size, k))
    ensures CutTo(l, m, m2, f, g.(db := g.db[k := CutPointer(l, size, f.db[k], k)]), s, size, k + 1,
                  released + |Held(f.db[k], FileFrags(l, s, k))| - |Held(CutPointer(l, size, f.db[k], k), FileFrags(l, size, k))|)
  {
    hide Union, Owned, Sound, Held, FileFrags, Conserved, Exclusive, CutTree, SameFrag, Extent, Cut, CutLens;
    var x', n := CutPointer(l, size, f.db[k], k), FileFrags(l, size, k);
    var lens := CutLens(l, s, size, k);
    CutStep(l, f, s, size, k);
    CutDirectParts(l.g.frag, g, lens, k, x', n);
    CutLedger(m.free, FileHeld(l.g.frag, f, Lens(l, s), true), m1.free, FileParts(l.g.frag, g, lens, true), m2.free, k, Held(x', n), released);
    CutRunOk(l, f, s, size, k);
  }

  lemma CutRunOk(l: Layout, f: File, s: nat, size: nat, k: nat)
    requires ValidLayout(l) && Shaped(l, f, Lens(l, s)) && k < DIRECT && size <= s
    ensures CutPointer(l, size, f.db[k], k) != 0 ==> RunOk(l, f.db[k], FileFrags(l, size, k))
    ensures f.db[k] != 0 && FileFrags(l, size, k) < FileFrags(l, s, k)
        ==> RunOk(l, f.db[k] + FileFrags(l, size, k), FileFrags(l, s, k) - FileFrags(l, size, k))
  {
    hide Sound, FileFrags;
    FragsMonotone(l, size, s, k);
    if f.db[k] != 0 && FileFrags(l, size, k) < FileFrags(l, s, k) {
      SubRun(l.g, l.lens, f.db[k], FileFrags(l, s, k), FileFrags(l, size, k));
    }
  }

  lemma CutTreeStep(l: Layout, m: Image, m1: Image, m2: Image, f: File, db: seq<nat>, ib: seq<nat>, s: nat, size: nat, slot: nat, x: nat, released: int)
    requires ValidLayout(l) && Shaped(l, f, Lens(l, s)) && slot < 3 && size <= s && OnDisk(l, m1.d) && |ib| == 3
    requires CutTo(l, m, m1, f, FileOf(l, m1.d, db, ib), s, size, DIRECT + slot, released)
    requires Released(l, m1.d, m2.d, m1.free, m2.free, f.trees[slot], x, slot + 1, CutTree(l, size, f.trees[slot], slot))
    ensures OnDisk(l, m2.d)
    ensures CutTo(l, m, m2, f, FileOf(l, m2.d, db, ib[slot := x]), s, size, DIRECT + slot + 1,
                  released + |Owned(l.g.frag, f.trees[slot], true)| - |Owned(l.g.frag, CutTree(l, size, f.trees[slot], slot), true)|)
  {
    hide Union, Owned, Sound, Held, FileFrags, Conserved, Exclusive, SameFrag, Extent, Cut, CutLens, Load, Prune, Base, Span;
    var k := DIRECT + slot;
    var g := FileOf(l, m1.d, db, ib);
    var t := CutTree(l, size, f.trees[slot], slot);
    var lens := CutLens(l, s, size, k);
    CutStep(l, f, s, size, k);
    WroteUntouched(l.fs, m1.free, Owned(l.g.frag, g.trees[slot], false), m1.d, m2.d);
    FileFollows(l, m1, m2.d, db, ib, lens, slot, x);
    CutTreeParts(l.g.frag, g, lens, slot, t);
    CutLedger(m.free, FileHeld(l.g.frag, f, Lens(l, s), true), m1.free, FileParts(l.g.frag, g, lens, true), m2.free, k, Owned(l.g.frag, t, true), released);
    CutTreeSound(l, f, s, size, slot);
    WroteMore(l, f, Lens(l, s), slot, m.d, m1.d, m2.d);
  }

  lemma WroteUntouched(fs: nat, free: iset<nat>, own: multiset<nat>, d: seq<Byte>, d': seq<Byte>)
    requires OnlyWrote(fs, own, d, d')
    ensures Untouched(fs, free, own, d, d')
  {
    forall y: nat | Holders(free, own, y) == 0 ensures SameFrag(fs, d, d', y) {
      assert own[y] == 0;
    }
  }

  lemma CutTreeSound(l: Layout, f: File, s: nat, size: nat, slot: nat)
    requires ValidLayout(l) && Shaped(l, f, Lens(l, s)) && slot < 3
    ensures Sound(l, CutTree(l, size, f.trees[slot], slot), slot + 1)
  {
    PruneSound(l, f.trees[slot], slot + 1, Base(l.entries, slot), Extent(l, size));
  }

  lemma WroteMore(l: Layout, f: File, lens: seq<nat>, slot: nat, d: seq<Byte>, d1: seq<Byte>, d2: seq<Byte>)
    requires |f.db| == |lens| == DIRECT && |f.trees| == 3 && slot < 3
    requires OnlyWrote(l.fs, FileHeld(l.g.frag, f, lens, false), d, d1) && OnlyWrote(l.fs, Owned(l.g.frag, f.trees[slot], false), d1, d2)
    ensures OnlyWrote(l.fs, FileHeld(l.g.frag, f, lens, false), d, d2)
  {
    hide SameFrag, Union, Owned, Held;
    var ms := FileParts(l.g.frag, f, lens, false);
    forall y: nat | FileHeld(l.g.frag, f, lens, false)[y] == 0 ensures SameFrag(l.fs, d, d2, y) {
      UnionPair(ms, 12 + slot, 12 + slot, y);
      assert ms[12 + slot] == Owned(l.g.frag, f.trees[slot], false);
      SameTwice(l.fs, d, d1, d2, y);
    }
  }

  /** Cuts the run behind one direct pointer. */
  method CutRun(v: Volume, x: nat, before: nat, after: nat) returns (x': nat, gone: nat)
    requires v.Valid() && after <= before && (x != 0 ==> 0 < before)
    requires x != 0 && after < before ==> RunOk(v.Lay(), x + after, before - after)
    requires Exclusive(v.Free(), Held(x, before))
    modifies v`cgs, v`csum, v`total
    ensures v.Valid()
    ensures RunCut(old(v.Free()), v.Free(), x, before, x', after) && x' == (if after == 0 then 0 else x)
    ensures gone == |Held(x, before)| - |Held(x', after)|
  {
    hide CountsValid, IsFree, Exclusive, Run, Held, Conserved;
    HeldCut(x, before, after);
    HeldSame(v.Free(), x, before);
    if x == 0 {
      return 0, 0;
    }
    if before > after {
      ReleaseRun(v, x + after, before - after, Run(x, after));
      return if after == 0 then 0 else x, before - after;
    }
    return x, 0;
  }

  lemma HeldCut(x: nat, before: nat, after: nat)
    requires after <= before
    ensures x != 0 ==> Held(x, before) == Run(x, after) + Run(x + after, before - after)
    ensures x != 0 ==> Held(if after == 0 then 0 else x, after) == Run(x, after)
    ensures |Held(x, before)| == (if x == 0 then 0 else before)
    ensures |Held(if after == 0 then 0 else x, after)| == (if x == 0 then 0 else after)
    ensures x == 0 ==> Held(x, before) == Held(x, after)
  {
  }

  lemma HeldSame(free: iset<nat>, x: nat, n: nat)
    ensures RunCut(free, free, x, n, x, n) && RunCut(free, free, 0, n, 0, 0)
    ensures forall k: nat :: RunCut(free, free, 0, n, 0, k)
  {
  }

  lemma PartOk(free: iset<nat>, frag: nat, f: File, lens: seq<nat>, k: nat)
    requires |f.db| == |lens| == DIRECT && |f.trees| == 3 && k < DIRECT && Exclusive(free, FileHeld(frag, f, lens, true))
    ensures Exclusive(free, Held(f.db[k], lens[k]))
  {
    PartExclusive(free, FileParts(frag, f, lens, true), k);
  }

  lemma CutReady(l: Layout, m: Image, m1: Image, f: File, g: File, s: nat, size: nat, k: nat, released: int)
    requires ValidLayout(l) && Shaped(l, f, Lens(l, s)) && size <= s && k < DIRECT
    requires CutTo(l, m, m1, f, g, s, size, k, released)
    ensures |g.db| == DIRECT && g.db[k] == f.db[k]
    ensures Exclusive(m1.free, Held(f.db[k], FileFrags(l, s, k))) && FileFrags(l, size, k) <= FileFrags(l, s, k)
    ensures f.db[k] != 0 ==> 0 < FileFrags(l, s, k)
    ensures f.db[k] != 0 && FileFrags(l, size, k) < FileFrags(l, s, k)
        ==> RunOk(l, f.db[k] + FileFrags(l, size, k), FileFrags(l, s, k) - FileFrags(l, size, k))
  {
    hide Sound, FileFrags, FileHeld, Exclusive, Conserved, Held, Cut, CutLens, OnlyWrote;
    CutStep(l, f, s, size, k);
    FragsMonotone(l, size, s, k);
    CutRunOk(l, f, s, size, k);
    PartOk(m1.free, l.g.frag, g, CutLens(l, s, size, k), k);
  }

  /** The loop over the direct pointers. */
  method CutDirects(v: Volume, node: Node, s: nat, size: nat) returns (released: nat)
    requires v.Valid() && |node.ib| == 3 && Good(v.Lay(), Img(v), NodeFile(v, node), Lens(v.Lay(), s)) && size <= s
    modifies v`cgs, v`csum, v`total, node`db
    ensures v.Valid()
    ensures CutTo(v.Lay(), old(Img(v)), Img(v), old(NodeFile(v, node)), NodeFile(v, node), s, size, DIRECT, released)
  {
    hide Sound, FileFrags, FileHeld, Exclusive, Conserved, Held, Cut, CutLens, OnlyWrote, Load, CountsValid, IsFree, CutTo;
    ghost var l, m, f := v.Lay(), Img(v), NodeFile(v, node);
    released := 0;
    CutBegin(l, m, f, s, size);
    for i := 0 to DIRECT
      invariant v.Valid() && v.data == old(v.data) && |node.db| == DIRECT
      invariant CutTo(l, m, Img(v), f, NodeFile(v, node), s, size, i, released)
    {
      ghost var m1, g := Img(v), NodeFile(v, node);
      CutReady(l, m, m1, f, g, s, size, i, released);
      var before, after := FileFrags(v.Lay(), s, i), FileFrags(v.Lay(), size, i);
      var x, gone := CutRun(v, node.db[i], before, after);
      CutDirect(l, m, m1, Img(v), f, g, s, size, i, released);
      node.db := node.db[i := x];
      released := released + gone;
    }
  }

  lemma CutBegin(l: Layout, m: Image, f: File, s: nat, size: nat)
    requires ValidLayout(l) && Good(l, m, f, Lens(l, s))
    ensures CutTo(l, m, m, f, f, s, size, 0, 0)
  {
    CutStart(l, f, s, size);
  }

  /** The loop over the three trees. */
  method CutTrees(v: Volume, node: Node, s: nat, size: nat, released0: nat, ghost m: Image, ghost f: File) returns (released: int)
    requires v.Valid() && |node.ib| == 3 && Shaped(v.Lay(), f, Lens(v.Lay(), s)) && size <= s
    requires CutTo(v.Lay(), m, Img(v), f, NodeFile(v, node), s, size, DIRECT, released0)
    modifies v, node`ib
    ensures v.Valid() && |node.ib| == 3 && released0 <= released
    ensures CutTo(v.Lay(), m, Img(v), f, NodeFile(v, node), s, size, 15, released)
  {
    hide Sound, FileFrags, FileHeld, Exclusive, Conserved, Held, Cut, CutLens, OnlyWrote, Load, CountsValid, IsFree, CutTo,
      Extent, Span, Owned,
      Prune, Released, TreeOk;
    ghost var l := v.Lay();
    released := released0;
    var keep := (size + 4 * v.entries - 1) / (4 * v.entries);
    KeepIsExtent(l, size);
    var base, span: nat := DIRECT, v.entries;
    SpanOne(v.entries);
    for slot := 0 to 3
      invariant v.Valid() && |node.ib| == 3 && released0 <= released && base == Base(v.entries, slot) && span == Span(v.entries, slot + 1)
      invariant CutTo(l, m, Img(v), f, NodeFile(v, node), s, size, DIRECT + slot, released)
    {
      ghost var m1 := Img(v);
      ghost var t := f.trees[slot];
      TreeReady(l, m, m1, f, node.db, node.ib, s, size, slot, released);
      var x, total := PruneTree(v, node.ib[slot], slot + 1, base, keep, released, t, CutTree(l, size, t, slot));
      CutTreeStep(l, m, m1, Img(v), f, node.db, node.ib, s, size, slot, x, released);
      node.ib := node.ib[slot := x];
      released := total;
      SpanNext(v.entries, slot);
      base := base + span;
      span := Mul(span, v.entries);
    }
  }

  lemma SpanOne(n: nat)
    requires 0 < n
    ensures Span(n, 1) == n
  {
    OneTimes(n);
  }

  lemma SpanNext(n: nat, slot: nat)
    requires 0 < n
    ensures Span(n, slot + 2) == Times(Span(n, slot + 1), n) && Base(n, slot + 1) == Base(n, slot) + Span(n, slot + 1)
  {
  }

  lemma KeepIsExtent(l: Layout, size: nat)
    requires ValidLayout(l)
    ensures (size + 4 * l.entries - 1) / (4 * l.entries) == Extent(l, size)
  {
    QuotIsDivision(BlockBytes(l), size + BlockBytes(l) - 1);
  }

  lemma TreeReady(l: Layout, m: Image, m1: Image, f: File, db: seq<nat>, ib: seq<nat>, s: nat, size: nat, slot: nat, released: int)
    requires ValidLayout(l) && OnDisk(l, m1.d) && |ib| == 3 && slot < 3 && Shaped(l, f, Lens(l, s))
    requires CutTo(l, m, m1, f, FileOf(l, m1.d, db, ib), s, size, DIRECT + slot, released)
    ensures TreeOk(l, m1.d, m1.free, ib[slot], slot + 1) && Load(l, m1.d, ib[slot], slot + 1) == f.trees[slot]
    ensures CutTree(l, size, f.trees[slot], slot) == Prune(l.entries, f.trees[slot], slot + 1, Base(l.entries, slot), Extent(l, size))
  {
    hide Sound, FileFrags, FileHeld, Exclusive, Conserved, Held, Cut, CutLens, OnlyWrote, Load, Prune, Extent, TreeOk;
    CutStep(l, f, s, size, DIRECT + slot);
    RootOk(l, m1, FileOf(l, m1.d, db, ib), CutLens(l, s, size, DIRECT + slot), slot, ib[slot]);
  }

  // ----- contents -----

  /** Cutting writes no data block. */
  lemma CutByte(l: Layout, m: Image, d': seq<Byte>, f: File, g: File, s: nat, size: nat, p: nat)
    requires ValidLayout(l) && Good(l, m, f, Lens(l, s)) && size <= s && p < size
    requires g == Cut(l, f, size, 15) && OnlyWrote(l.fs, FileHeld(l.g.frag, f, Lens(l, s), false), m.d, d')
    ensures ByteAt(l, d', g, p) == ByteAt(l, m.d, f, p)
  {
    hide Block, FileHeld, Sound, Held, SameFrag, Exclusive, FileFrags, Extent, Cut, RunLen, Lens, Quot, Times;
    var b := Quot(BlockBytes(l), p);
    ByteInRun(l, size, p);
    RunByte(l, s, p);
    CutGet(l, f, Lens(l, s), size, b);
    var x, n := Block(l.entries, f, b), RunLen(l.g.frag, Lens(l, s), b);
    if x != 0 {
      forall y | x <= y < x + n ensures SameFrag(l.fs, m.d, d', y) {
        DataApart(l, m, f, Lens(l, s), b, y);
      }
      RunSame(l.fs, m.d, d', x, n);
    }
  }

  lemma DataApart(l: Layout, m: Image, f: File, lens: seq<nat>, b: nat, y: nat)
    requires ValidLayout(l) && Good(l, m, f, lens) && Block(l.entries, f, b) != 0
    requires Block(l.entries, f, b) <= y < Block(l.entries, f, b) + RunLen(l.g.frag, lens, b)
    ensures FileHeld(l.g.frag, f, lens, false)[y] == 0
  {
    hide Block, FileHeld, Sound, Exclusive, RunLen;
    BlocksDistinct(l, f, lens, b, b + 1, y);
    ExclusiveAt(m.free, FileHeld(l.g.frag, f, lens, true), y);
  }

  /** The file after all fifteen pointers are cut. */
  lemma CutDone(l: Layout, spf: nat, m: Image, m': Image, f: File, g: File, s: nat, size: nat, blocks: nat, released: nat)
    requires ValidLayout(l) && FileOk(l, spf, m, f, s, blocks) && size <= s && CutTo(l, m, m', f, g, s, size, 15, released)
    ensures Times(spf, released) <= blocks && FileOk(l, spf, m', g, size, blocks - Times(spf, released))
    ensures Content(l, m'.d, g, size) == Content(l, m.d, f, s)[..size]
    ensures Step(l.fs, m, m', FileHeld(l.g.frag, f, Lens(l, s), true), FileHeld(l.g.frag, g, Lens(l, size), true))
  {
    hide Block, FileHeld, Sound, Held, Conserved, Exclusive, FileFrags, Extent, Cut, ByteAt, SameFrag, OnlyWrote, Union;
    assert CutLens(l, s, size, 15) == Lens(l, size);
    forall b: nat | Extent(l, size) <= b ensures Block(l.entries, g, b) == 0 {
      CutGet(l, f, Lens(l, s), size, b);
    }
    TimesAdd(spf, |FileHeld(l.g.frag, g, Lens(l, size), true)|, released);
    ExtentExact(l, size, Extent(l, s));
    ExtentExact(l, s, Extent(l, s));
    forall p | 0 <= p < size ensures ByteAt(l, m'.d, g, p) == ByteAt(l, m.d, f, p) {
      CutByte(l, m, m'.d, f, g, s, size, p);
    }
    assert Content(l, m'.d, g, size) == Content(l, m.d, f, s)[..size];
    IndexUntouched(l, m, m'.d, f, Lens(l, s));
  }

  lemma IndexUntouched(l: Layout, m: Image, d': seq<Byte>, f: File, lens: seq<nat>)
    requires ValidLayout(l) && Shaped(l, f, lens) && OnlyWrote(l.fs, FileHeld(l.g.frag, f, lens, false), m.d, d')
    ensures Untouched(l.fs, m.free, FileHeld(l.g.frag, f, lens, true), m.d, d')
  {
    hide FileHeld, Sound, SameFrag, Held, Block;
    forall y: nat | Holders(m.free, FileHeld(l.g.frag, f, lens, true), y) == 0 ensures SameFrag(l.fs, m.d, d', y) {
      BlocksDistinct(l, f, lens, 0, 1, y);
      assert FileHeld(l.g.frag, f, lens, false)[y] == 0;
    }
  }

  // ----- the tail -----

  /** Writing inside the run of one block changes those bytes of the file and nothing else. */
  lemma PatchedFile(l: Layout, m: Image, d': seq<Byte>, db: seq<nat>, ib: seq<nat>, size: nat, b: nat, from: nat, s: seq<Byte>)
    requires ValidLayout(l) && OnDisk(l, m.d) && |ib| == 3 && Good(l, m, FileOf(l, m.d, db, ib), Lens(l, size))
    requires Block(l.entries, FileOf(l, m.d, db, ib), b) != 0 && NothingPast(l, FileOf(l, m.d, db, ib), size)
    requires var x, n := Block(l.entries, FileOf(l, m.d, db, ib), b), FileFrags(l, size, b);
      && from + |s| <= Times(l.fs, n) && Times(l.fs, x) + Times(l.fs, n) <= |m.d|
      && d' == Put(m.d, Times(l.fs, x) + from, s)
    ensures OnDisk(l, d') && FileOf(l, d', db, ib) == FileOf(l, m.d, db, ib)
    ensures Good(l, Image(d', m.free), FileOf(l, m.d, db, ib), Lens(l, size))
    ensures Untouched(l.fs, m.free, FileHeld(l.g.frag, FileOf(l, m.d, db, ib), Lens(l, size), true), m.d, d')
    ensures forall p: nat | p < size :: PatchedAt(l, m.d, d', FileOf(l, m.d, db, ib), b, from, s, p)
  {
    hide Block, FileHeld, Sound, Held, Conserved, Exclusive, FileFrags, Extent, ByteAt, SameFrag, Union, Load, SameElsewhere,
      Untouched, Lens;
    var f := FileOf(l, m.d, db, ib);
    var x, n := Block(l.entries, f, b), FileFrags(l, size, b);
    FragsOfBlock(l, f, size, b);
    PutElsewhere(l.fs, m.d, x, n, Times(l.fs, x) + from, s);
    SameHolders(m.free, FileHeld(l.g.frag, f, Lens(l, size), true), x + n);
    WriteKeepsFile(l, m, m, d', db, ib, Lens(l, size), b, x, n, x, n);
    ElsewhereUntouched(l, m, d', f, Lens(l, size), b, x, n);
    FrameInFile(l, m, d', f, Lens(l, size), b, n);
    forall p: nat | p < size ensures PatchedAt(l, m.d, d', f, b, from, s, p) {
      if Quot(BlockBytes(l), p) == b {
        PatchedByte(l, m.d, d', f, b, from, s, p);
      } else {
        OtherByteSame(l, m, d', f, f, size, b, n, p);
      }
    }
  }

  /** Byte `p` of the file before and after `s` is written at offset `from` of block `b`. */
  predicate PatchedAt(l: Layout, d: seq<Byte>, d': seq<Byte>, f: File, b: nat, from: nat, s: seq<Byte>, p: nat)
    requires ValidLayout(l) && |f.db| == DIRECT && |f.trees| == 3
  {
    var o := p - Times(BlockBytes(l), b);
    ByteAt(l, d', f, p) == if Quot(BlockBytes(l), p) == b && from <= o < from + |s| then s[o - from] else ByteAt(l, d, f, p)
  }

  lemma PatchedByte(l: Layout, d: seq<Byte>, d': seq<Byte>, f: File, b: nat, from: nat, s: seq<Byte>, p: nat)
    requires ValidLayout(l) && |f.db| == DIRECT && |f.trees| == 3 && Quot(BlockBytes(l), p) == b && Block(l.entries, f, b) != 0
    requires Times(l.fs, Block(l.entries, f, b)) + from + |s| <= |d|
    requires d' == Put(d, Times(l.fs, Block(l.entries, f, b)) + from, s)
    ensures PatchedAt(l, d, d', f, b, from, s, p)
  {
    hide Block, Times, Quot;
  }

  lemma ElsewhereUntouched(l: Layout, m: Image, d': seq<Byte>, f: File, lens: seq<nat>, b: nat, x: nat, n: nat)
    requires ValidLayout(l) && Shaped(l, f, lens) && x == Block(l.entries, f, b) && x != 0 && SameElsewhere(l.fs, m.d, d', x, n)
    ensures Untouched(l.fs, m.free, FileHeld(l.g.frag, f, lens, false) + Held(x, n), m.d, d')
  {
    hide FileHeld, SameFrag, Block;
    var own := FileHeld(l.g.frag, f, lens, false) + Held(x, n);
    forall y: nat | Holders(m.free, own, y) == 0 ensures SameFrag(l.fs, m.d, d', y) {
      assert own[y] == 0;
    }
  }

  /** The last run is zero past the end of the file. */
  ghost predicate TailZeroed(l: Layout, d: seq<Byte>, f: File, size: nat)
    requires ValidLayout(l) && |f.db| == DIRECT && |f.trees| == 3
  {
    var b := Quot(BlockBytes(l), size);
    var x, within := Block(l.entries, f, b), size - Times(BlockBytes(l), b);
    x == 0 || within == 0 ||
    forall p | Times(l.fs, x) + within <= p < Times(l.fs, x) + Times(l.fs, FileFrags(l, size, b)) && p < |d| :: d[p] == 0
  }

  /** Zeros past the end leave the content as it was. */
  lemma ZeroedContent(l: Layout, d: seq<Byte>, d': seq<Byte>, f: File, size: nat, b: nat, from: nat, s: seq<Byte>)
    requires ValidLayout(l) && |f.db| == DIRECT && |f.trees| == 3 && size == Times(BlockBytes(l), b) + from
    requires forall p: nat | p < size :: PatchedAt(l, d, d', f, b, from, s, p)
    ensures Content(l, d', f, size) == Content(l, d, f, size)
  {
    hide ByteAt, Quot, Times;
    forall p: nat | p < size ensures ByteAt(l, d', f, p) == ByteAt(l, d, f, p) {
      assert PatchedAt(l, d, d', f, b, from, s, p);
    }
  }

  /** Zeroes what the last block holds past the end of the file. */
  method ZeroTail(v: Volume, node: Node, size: nat) returns (r: Option<Errno>)
    requires NodeOk(v, node, size)
    modifies v`data
    ensures r.None? && NodeOk(v, node, size) && Bytes(v, node, size) == old(Bytes(v, node, size))
    ensures TailZeroed(v.Lay(), v.data, NodeFile(v, node), size)
    ensures Step(v.fsize, old(Img(v)), Img(v), old(NodeHeld(v, node, size)), NodeHeld(v, node, size))
  {
    hide Block, FileHeld, Sound, Held, Conserved, Exclusive, FileFrags, Extent, SameFrag, Load, CountsValid, IsFree, Content,
      Put, Zeros,
      Route, Base, Untouched, Times, Quot;
    ghost var l, m, own := v.Lay(), Img(v), NodeHeld(v, node, size);
    StepNowhere(v.fsize, m, own);
    DivFacts(l, size);
    var bs := 4 * v.entries;
    var logical, within := size / bs, size % bs;
    if within == 0 {
      return None;
    }
    TailPlaced(l, NodeFile(v, node), size, logical);
    var found := Resolved(v, node, logical, Lens(l, size));
    var x := found.value;
    if x == 0 {
      return None;
    }
    var n := FileFrags(v.Lay(), size, logical);
    TailFits(l, m, NodeFile(v, node), size, logical, within);
    var p := Mul(v.fsize, x);
    var q := Mul(v.fsize, n);
    var zeros := Zeros(q - within);
    PatchedFile(l, m, Put(v.data, p + within, zeros), node.db, node.ib, size, logical, within, zeros);
    ZeroedContent(l, v.data, Put(v.data, p + within, zeros), NodeFile(v, node), size, logical, within, zeros);
    PutZeros(v.data, p + within, q - within);
    v.data := Put(v.data, p + within, zeros);
    StepInPlace(v.fsize, m, Img(v), own);
    return None;
  }

  lemma PutZeros(d: seq<Byte>, p: nat, n: nat)
    requires p + n <= |d|
    ensures forall i | p <= i < p + n :: Put(d, p, Zeros(n))[i] == 0
  {
  }

  lemma StepInPlace(fs: nat, m: Image, m': Image, own: multiset<nat>)
    requires m'.free == m.free && Untouched(fs, m.free, own, m.d, m'.d)
    ensures Step(fs, m, m', own, own)
  {
  }

  lemma TailPlaced(l: Layout, f: File, size: nat, logical: nat)
    requires ValidLayout(l) && Extent(l, size) <= Base(l.entries, 3) && Times(BlockBytes(l), logical) < size
    ensures !Where(l.entries, logical).Beyond?
  {
    hide Extent;
    ExtentExact(l, size, logical);
    WhereExact(l.entries, logical);
  }

  lemma TailFits(l: Layout, m: Image, f: File, size: nat, logical: nat, within: nat)
    requires ValidLayout(l) && Good(l, m, f, Lens(l, size)) && NothingPast(l, f, size) && Block(l.entries, f, logical) != 0
    requires size == Times(BlockBytes(l), logical) + within && 0 < within < BlockBytes(l)
    ensures var n := FileFrags(l, size, logical);
      within <= Times(l.fs, n) && Times(l.fs, Block(l.entries, f, logical)) + Times(l.fs, n) <= |m.d|
  {
    hide Block, Extent, Sound, FileFrags;
    FragsOfBlock(l, f, size, logical);
    BlockRun(l, f, Lens(l, size), logical);
    InsideSlice(l, Block(l.entries, f, logical), FileFrags(l, size, logical));
    RunFits(l, Block(l.entries, f, logical), FileFrags(l, size, logical));
  }

  /** The shrinking half of `nextufs__file_resize`. It cannot fail, and the check that the inode's block
      count covers what was released never fires. */
  method Shrink(v: Volume, node: Node, size: nat) returns (r: Option<Errno>)
    requires NodeOk(v, node, node.size) && size < node.size
    modifies v, node`db, node`ib, node`blocks
    ensures r.None? && NodeOk(v, node, size)
    ensures Bytes(v, node, size) == old(Bytes(v, node, node.size))[..size] && TailZeroed(v.Lay(), v.data, NodeFile(v, node), size)
    ensures Step(v.fsize, old(Img(v)), Img(v), old(NodeHeld(v, node, node.size)), NodeHeld(v, node, size))
  {
    hide Block, FileHeld, Sound, Held, Conserved, Exclusive, FileFrags, Extent, SameFrag, Load, CountsValid, IsFree, Content,
      Route, Base, Untouched, CutTo, Cut, TailZeroed;
    ghost var l, m, f, s, own := v.Lay(), Img(v), NodeFile(v, node), node.size, NodeHeld(v, node, node.size);
    var released := CutDirects(v, node, node.size, size);
    released := CutTrees(v, node, node.size, size, released, m, f);
    ghost var m1 := Img(v);
    CutDone(l, v.spf, m, m1, f, NodeFile(v, node), s, size, node.blocks, released);
    var sectors := Mul(v.spf, released);
    if sectors > node.blocks {
      return Some(Einval);
    }
    node.blocks := node.blocks - sectors;
    ghost var own1 := NodeHeld(v, node, size);
    r := ZeroTail(v, node, size);
    StepTwice(v.fsize, m, m1, Img(v), own, own1, NodeHeld(v, node, size));
  }
}
