/** Resizing, writing and reading whole files: what the bytes are afterwards, and who owns what. */
module FileResize {
  import opened Scale
  import opened Ledger
  import opened Options
  import opened Volume
  import opened BlockTree
  import opened IndirectBlocks
  import opened Files
  import opened Pruning
  import opened Resolve
  import opened FileMutate
  import opened FileNeeds

  const MAX_SIZE: nat := 0x7FFF_FFFF

  /** The byte at position `p` of the file; a hole reads as zero. */
  function ByteAt(l: Layout, d: seq<Byte>, f: File, p: nat): Byte
    requires ValidLayout(l) && |f.db| == DIRECT && |f.trees| == 3
  {
    var b := Quot(BlockBytes(l), p);
    var x := Block(l.entries, f, b);
    var pos := Times(l.fs, x) + (p - Times(BlockBytes(l), b));
    if x == 0 || pos >= |d| then 0 else d[pos]
  }

  function Content(l: Layout, d: seq<Byte>, f: File, size: nat): (s: seq<Byte>)
    requires ValidLayout(l) && |f.db| == DIRECT && |f.trees| == 3
    ensures |s| == size
  {
    seq(size, p requires 0 <= p < size => ByteAt(l, d, f, p))
  }

  /** No block pointer at or past the end of the file. */
  ghost predicate NothingPast(l: Layout, f: File, size: nat)
    requires ValidLayout(l) && |f.db| == DIRECT && |f.trees| == 3
  {
    forall b: nat | Extent(l, size) <= b :: Block(l.entries, f, b) == 0
  }

  /** The invariant of a file at rest. */
  ghost predicate FileOk(l: Layout, spf: nat, m: Image, f: File, size: nat, blocks: nat)
    requires ValidLayout(l)
  {
    && Good(l, m, f, Lens(l, size)) && NothingPast(l, f, size)
    && blocks == Times(spf, |FileHeld(l.g.frag, f, Lens(l, size), true)|)
    && Extent(l, size) <= Base(l.entries, 3) && size <= MAX_SIZE
  }

  // ----- run lengths -----

  /** Run lengths matter only where there is a run. */
  lemma SameRuns(l: Layout, f: File, lens: seq<nat>, lens': seq<nat>)
    requires ValidLayout(l) && Shaped(l, f, lens) && |lens'| == DIRECT
    requires forall i | 0 <= i < DIRECT :: f.db[i] != 0 ==> lens'[i] == lens[i]
    ensures Shaped(l, f, lens') && forall data :: FileHeld(l.g.frag, f, lens', data) == FileHeld(l.g.frag, f, lens, data)
  {
    hide Union, Owned, Sound;
    forall data ensures FileParts(l.g.frag, f, lens', data) == FileParts(l.g.frag, f, lens, data) {
    }
  }

  /** Between two sizes, only block `b` may have been, or become, partly filled. */
  ghost predicate OnlyPartial(l: Layout, s: nat, s': nat, b: nat)
    requires ValidLayout(l)
  {
    s == s' || forall i: nat | i != b && !WholeIn(l, s, i) :: Extent(l, s) <= i
  }

  predicate WholeIn(l: Layout, s: nat, i: nat)
    requires ValidLayout(l)
  {
    Times(BlockBytes(l), i) + BlockBytes(l) <= s
  }

  lemma WholeFrags(l: Layout, s: nat, i: nat)
    requires ValidLayout(l) && WholeIn(l, s, i)
    ensures FileFrags(l, s, i) == l.g.frag
  {
  }

  lemma GrownLens(l: Layout, f: File, s: nat, s': nat, b: nat)
    requires ValidLayout(l) && Shaped(l, f, NewLens(Lens(l, s), b, FileFrags(l, s', b))) && s <= s' && OnlyPartial(l, s, s', b)
    requires forall j: nat | Extent(l, s) <= j && j != b :: Block(l.entries, f, j) == 0
    ensures Shaped(l, f, Lens(l, s'))
    ensures forall data :: FileHeld(l.g.frag, f, Lens(l, s'), data)
                        == FileHeld(l.g.frag, f, NewLens(Lens(l, s), b, FileFrags(l, s', b)), data)
  {
    hide Sound, FileHeld, FileFrags, Extent;
    var lens := NewLens(Lens(l, s), b, FileFrags(l, s', b));
    forall i | 0 <= i < DIRECT ensures f.db[i] != 0 ==> Lens(l, s')[i] == lens[i] {
      assert Block(l.entries, f, i) == f.db[i];
      if s != s' && i != b && f.db[i] != 0 {
        assert WholeIn(l, s, i);
        WholeFrags(l, s, i);
        WholeFrags(l, s', i);
      }
    }
    SameRuns(l, f, lens, Lens(l, s'));
  }

  // ----- bytes -----

  /** The bytes of a block that was not rewritten. */
  lemma OtherBlockSame(l: Layout, m: Image, d': seq<Byte>, f: File, lens: seq<nat>, b: nat, before: nat, j: nat)
    requires ValidLayout(l) && Good(l, m, f, lens) && j != b && Block(l.entries, f, j) != 0
    requires Block(l.entries, f, b) == 0 || before == RunLen(l.g.frag, lens, b)
    requires Untouched(l.fs, m.free, FileHeld(l.g.frag, f, lens, false) + Held(Block(l.entries, f, b), before), m.d, d')
    ensures var x := Block(l.entries, f, j);
      SameBytes(m.d, d', Times(l.fs, x), Times(l.fs, x) + Times(l.fs, RunLen(l.g.frag, lens, j)))
  {
    hide Block, FileHeld, Sound, SameFrag, Exclusive, RunLen;
    var x, n := Block(l.entries, f, j), RunLen(l.g.frag, lens, j);
    var own := FileHeld(l.g.frag, f, lens, false) + Held(Block(l.entries, f, b), before);
    forall y | x <= y < x + n ensures SameFrag(l.fs, m.d, d', y) {
      BlocksDistinct(l, f, lens, b, j, y);
      ExclusiveAt(m.free, FileHeld(l.g.frag, f, lens, true), y);
      assert Holders(m.free, own, y) == 0;
    }
    RunSame(l.fs, m.d, d', x, n);
  }

  /** A byte below the end of the file lies inside the run of its block. */
  lemma ByteInRun(l: Layout, size: nat, p: nat)
    requires ValidLayout(l) && p < size
    ensures var b := Quot(BlockBytes(l), p);
      && b < Extent(l, size)
      && p - Times(BlockBytes(l), b) < Times(l.fs, FileFrags(l, size, b))
      && p - Times(BlockBytes(l), b) < Times(l.fs, l.g.frag)
  {
    var b := Quot(BlockBytes(l), p);
    ExtentExact(l, size, b);
  }

  lemma RunByte(l: Layout, size: nat, p: nat)
    requires ValidLayout(l) && p < size
    ensures var b := Quot(BlockBytes(l), p); p - Times(BlockBytes(l), b) < Times(l.fs, RunLen(l.g.frag, Lens(l, size), b))
  {
    ByteInRun(l, size, p);
  }

  lemma OtherByteSame(l: Layout, m: Image, d': seq<Byte>, f: File, f': File, s: nat, b: nat, before: nat, p: nat)
    requires ValidLayout(l) && Good(l, m, f, Lens(l, s)) && Quot(BlockBytes(l), p) != b && p < s
    requires |f'.db| == DIRECT && |f'.trees| == 3
    requires var j := Quot(BlockBytes(l), p); Block(l.entries, f', j) == Block(l.entries, f, j)
    requires Block(l.entries, f, b) == 0 || before == RunLen(l.g.frag, Lens(l, s), b)
    requires Untouched(l.fs, m.free, FileHeld(l.g.frag, f, Lens(l, s), false) + Held(Block(l.entries, f, b), before), m.d, d')
    ensures ByteAt(l, d', f', p) == ByteAt(l, m.d, f, p)
  {
    hide Block, FileHeld, Sound, SameFrag, Exclusive, RunLen, FileFrags, Held;
    var j := Quot(BlockBytes(l), p);
    if Block(l.entries, f, j) != 0 {
      OtherBlockSame(l, m, d', f, Lens(l, s), b, before, j);
      RunByte(l, s, p);
    }
  }

  lemma HasByte(d: seq<Byte>, p: nat, s: seq<Byte>, o: nat)
    requires HasBytes(d, p, s) && o < |s|
    ensures p + o < |d| && d[p + o] == s[o]
  {
    assert d[p..p + |s|][o] == d[p + o];
  }

  /** The bytes of the grown block: the old ones up to the old size, then zeros. */
  lemma GrownByte(l: Layout, d: seq<Byte>, d': seq<Byte>, f: File, f': File, s: nat, b: nat, sOld: nat, after: nat, p: nat)
    requires ValidLayout(l) && |f.db| == |f'.db| == DIRECT && |f.trees| == |f'.trees| == 3
    requires Quot(BlockBytes(l), p) == b && p - Times(BlockBytes(l), b) < Times(l.fs, after)
    requires Block(l.entries, f', b) != 0
    requires Block(l.entries, f, b) != 0 ==> sOld == s
    requires var x := Block(l.entries, f, b); var keep := Kept(l, x, sOld, b);
      && keep <= Times(l.fs, after) && Times(l.fs, x) + keep <= |d|
      && HasBytes(d', Times(l.fs, Block(l.entries, f', b)), GrownBytes(l, d, x, keep, after))
    ensures ByteAt(l, d', f', p) == if p < s then ByteAt(l, d, f, p) else 0
  {
    hide Block, HasBytes, FileFrags, Times, Quot;
    var base := Times(BlockBytes(l), b);
    var o := p - base;
    var x := Block(l.entries, f, b);
    var keep := Kept(l, x, sOld, b);
    HasByte(d', Times(l.fs, Block(l.entries, f', b)), GrownBytes(l, d, x, keep, after), o);
    if x != 0 {
      KeptExact(l, x, s, b, p);
    }
  }

  /** Inside the block, the kept bytes are those below the old size. */
  lemma KeptExact(l: Layout, x: nat, s: nat, b: nat, p: nat)
    requires ValidLayout(l) && x != 0 && Quot(BlockBytes(l), p) == b
    ensures p - Times(BlockBytes(l), b) < Kept(l, x, s, b) <==> p < s
  {
    if p < s { ByteInRun(l, s, p); }
  }

  /** Growing one block takes a file of size `s` to a file of size `s'` whose content is padded with
      zeros. With `s == s'` it fills a hole and the content stays as it was. */
  lemma GrownContent(l: Layout, m: Image, m': Image, f: File, f': File, s: nat, s': nat, b: nat, sOld: nat)
    requires ValidLayout(l) && Good(l, m, f, Lens(l, s)) && NothingPast(l, f, s) && s <= s' && OnlyPartial(l, s, s', b)
    requires Block(l.entries, f, b) != 0 ==> sOld == s
    requires var x, after := Block(l.entries, f, b), FileFrags(l, s', b); var keep := Kept(l, x, sOld, b);
      && keep <= Times(l.fs, after) && Times(l.fs, x) + keep <= |m.d|
      && Grown(l, m, m', f, f', Lens(l, s), b, if x == 0 then 0 else FileFrags(l, sOld, b), after, GrownBytes(l, m.d, x, keep, after))
    ensures Content(l, m'.d, f', s') == Content(l, m.d, f, s) + Zeros(s' - s)
  {
    hide Block, FileFrags, FileHeld, Times, Quot, GrownBytes, Kept, HasBytes, Conserved, SameFrag, Exclusive, ByteAt, Extent;
    forall p | 0 <= p < s' ensures ByteAt(l, m'.d, f', p) == if p < s then ByteAt(l, m.d, f, p) else 0 {
      GrownContentAt(l, m, m', f, f', s, s', b, sOld, p);
    }
  }

  lemma GrownContentAt(l: Layout, m: Image, m': Image, f: File, f': File, s: nat, s': nat, b: nat, sOld: nat, p: nat)
    requires ValidLayout(l) && Good(l, m, f, Lens(l, s)) && NothingPast(l, f, s) && p < s' && OnlyPartial(l, s, s', b)
    requires Block(l.entries, f, b) != 0 ==> sOld == s
    requires var x, after := Block(l.entries, f, b), FileFrags(l, s', b); var keep := Kept(l, x, sOld, b);
      && keep <= Times(l.fs, after) && Times(l.fs, x) + keep <= |m.d|
      && Grown(l, m, m', f, f', Lens(l, s), b, if x == 0 then 0 else FileFrags(l, sOld, b), after, GrownBytes(l, m.d, x, keep, after))
    ensures ByteAt(l, m'.d, f', p) == if p < s then ByteAt(l, m.d, f, p) else 0
  {
    hide Block, FileHeld, Times, Quot, GrownBytes, Kept, HasBytes, Conserved, SameFrag, Exclusive, ByteAt, Extent, FileFrags,
      Untouched;
    var j := Quot(BlockBytes(l), p);
    var x := Block(l.entries, f, b);
    if j == b {
      ByteInRun(l, s', p);
      GrownByte(l, m.d, m'.d, f, f', s, b, sOld, FileFrags(l, s', b), p);
    } else if p < s {
      BeforeLen(l, f, s, sOld, b);
      OtherByteSame(l, m, m'.d, f, f', s, b, if x == 0 then 0 else FileFrags(l, sOld, b), p);
    } else {
      PastByte(l, m'.d, f, f', s, s', b, p);
    }
  }

  lemma BeforeLen(l: Layout, f: File, s: nat, sOld: nat, b: nat)
    requires ValidLayout(l) && Shaped(l, f, Lens(l, s)) && NothingPast(l, f, s)
    requires Block(l.entries, f, b) != 0 ==> sOld == s
    ensures Block(l.entries, f, b) == 0 || FileFrags(l, sOld, b) == RunLen(l.g.frag, Lens(l, s), b)
  {
    hide Block, Sound;
    if Block(l.entries, f, b) != 0 {
      FragsOfBlock(l, f, s, b);
    }
  }

  lemma FragsOfBlock(l: Layout, f: File, s: nat, b: nat)
    requires ValidLayout(l) && |f.db| == DIRECT && |f.trees| == 3 && NothingPast(l, f, s) && Block(l.entries, f, b) != 0
    ensures FileFrags(l, s, b) == RunLen(l.g.frag, Lens(l, s), b)
  {
    hide Block;
    ExtentExact(l, s, b);
  }

  /** Past the old end, a block other than the grown one is still a hole. */
  lemma PastByte(l: Layout, d': seq<Byte>, f: File, f': File, s: nat, s': nat, b: nat, p: nat)
    requires ValidLayout(l) && |f.db| == DIRECT && |f.trees| == 3 && |f'.db| == DIRECT && |f'.trees| == 3
    requires NothingPast(l, f, s) && s <= p < s' && OnlyPartial(l, s, s', b) && Quot(BlockBytes(l), p) != b
    requires forall j: nat | j != b :: Block(l.entries, f', j) == Block(l.entries, f, j)
    ensures ByteAt(l, d', f', p) == 0
  {
    hide Block, Extent;
    var j := Quot(BlockBytes(l), p);
    assert !WholeIn(l, s, j);
  }

  lemma ExtentGrows(l: Layout, s: nat, s': nat, b: nat)
    requires ValidLayout(l) && s <= s' && Times(BlockBytes(l), b) < s' && (s == s' || s' <= Times(BlockBytes(l), b + 1))
    ensures Extent(l, s) <= Extent(l, s') && b < Extent(l, s')
    ensures s != s' ==> Extent(l, s') == b + 1
  {
    hide Extent;
    ExtentExact(l, s', b);
    ExtentExact(l, s', b + 1);
    ExtentExact(l, s, Extent(l, s'));
    ExtentExact(l, s', Extent(l, s'));
  }

  lemma GrownPast(l: Layout, f: File, f': File, s: nat, s': nat, b: nat)
    requires ValidLayout(l) && |f.db| == |f'.db| == DIRECT && |f.trees| == |f'.trees| == 3 && NothingPast(l, f, s)
    requires s <= s' && Times(BlockBytes(l), b) < s' && (s == s' || s' <= Times(BlockBytes(l), b + 1))
    requires forall j: nat | j != b :: Block(l.entries, f', j) == Block(l.entries, f, j)
    requires !Where(l.entries, b).Beyond? && Extent(l, s) <= Base(l.entries, 3)
    ensures NothingPast(l, f', s') && Extent(l, s') <= Base(l.entries, 3)
  {
    hide Block, Extent;
    ExtentGrows(l, s, s', b);
    WhereExact(l.entries, b);
  }

  /** The invariant after one block has grown. */
  lemma GrownOk(l: Layout, spf: nat, m: Image, m': Image, f: File, f': File, s: nat, s': nat, b: nat, sOld: nat,
      blocks: nat, blocks': nat, buf: seq<Byte>)
    requires ValidLayout(l) && FileOk(l, spf, m, f, s, blocks) && s <= s' <= MAX_SIZE && OnlyPartial(l, s, s', b)
    requires Times(BlockBytes(l), b) < s' && (s == s' || s' <= Times(BlockBytes(l), b + 1)) && !Where(l.entries, b).Beyond?
    requires Block(l.entries, f, b) != 0 ==> sOld == s
    requires var x, after := Block(l.entries, f, b), FileFrags(l, s', b);
      && Grown(l, m, m', f, f', Lens(l, s), b, if x == 0 then 0 else FileFrags(l, sOld, b), after, buf)
      && blocks' + Times(spf, |FileHeld(l.g.frag, f, Lens(l, s), true)|)
         == blocks + Times(spf, |FileHeld(l.g.frag, f', NewLens(Lens(l, s), b, after), true)|)
    ensures FileOk(l, spf, m', f', s', blocks')
    ensures Conserved(m.free, FileHeld(l.g.frag, f, Lens(l, s), true), m'.free, FileHeld(l.g.frag, f', Lens(l, s'), true))
    ensures Step(l.fs, m, m', FileHeld(l.g.frag, f, Lens(l, s), true), FileHeld(l.g.frag, f', Lens(l, s'), true))
  {
    hide Block, FileHeld, Times, Quot, HasBytes, SameFrag, Exclusive, Extent, FileFrags, Sound, Held, Conserved;
    var x := Block(l.entries, f, b);
    GrownPast(l, f, f', s, s', b);
    GrownLens(l, f', s, s', b);
    BeforeLen(l, f, s, sOld, b);
    var before := if x == 0 then 0 else FileFrags(l, sOld, b);
    OldHeld(l, f, Lens(l, s), b, before);
    FrameInFile(l, m, m'.d, f, Lens(l, s), b, before);
  }

  /** What growing may write belongs to the file or was free. */
  lemma FrameInFile(l: Layout, m: Image, d': seq<Byte>, f: File, lens: seq<nat>, b: nat, before: nat)
    requires ValidLayout(l) && Shaped(l, f, lens)
    requires if Block(l.entries, f, b) == 0 then before == 0 else before == RunLen(l.g.frag, lens, b)
    requires Untouched(l.fs, m.free, FileHeld(l.g.frag, f, lens, false) + Held(Block(l.entries, f, b), before), m.d, d')
    ensures Untouched(l.fs, m.free, FileHeld(l.g.frag, f, lens, true), m.d, d')
  {
    hide Block, FileHeld, Sound, SameFrag;
    PartHeld(l, f, lens, b);
    var own := FileHeld(l.g.frag, f, lens, false) + Held(Block(l.entries, f, b), before);
    var all := FileHeld(l.g.frag, f, lens, true);
    forall y: nat | Holders(m.free, all, y) == 0 ensures SameFrag(l.fs, m.d, d', y) {
      assert (FileHeld(l.g.frag, f, lens, false) + Held(Block(l.entries, f, b), RunLen(l.g.frag, lens, b)))[y] <= all[y];
      assert Holders(m.free, own, y) == 0;
    }
  }

  ghost predicate NodeOk(v: Volume, node: Node, size: nat)
    reads v, node
  {
    v.Valid() && |node.ib| == 3 && FileOk(v.Lay(), v.spf, Img(v), NodeFile(v, node), size, node.blocks)
  }

  ghost function NodeHeld(v: Volume, node: Node, size: nat): multiset<nat>
    requires NodeOk(v, node, size)
    reads v, node
  {
    FileHeld(v.g.frag, NodeFile(v, node), Lens(v.Lay(), size), true)
  }

  ghost function Bytes(v: Volume, node: Node, size: nat): (s: seq<Byte>)
    requires NodeOk(v, node, size)
    reads v, node
    ensures |s| == size
  {
    Content(v.Lay(), v.data, NodeFile(v, node), size)
  }

  /** One `grow_block` call of a resize or a write, as a step from a file of size `s` to one of size `s'`. */
  method GrowTo(v: Volume, node: Node, b: nat, oldSize: nat, newSize: nat, preferred: nat, ghost s: nat, ghost s': nat)
    returns (r: Option<Errno>)
    requires NodeOk(v, node, s) && s <= s' <= newSize && s' <= MAX_SIZE && oldSize <= newSize
    requires OnlyPartial(v.Lay(), s, s', b) && FileFrags(v.Lay(), newSize, b) == FileFrags(v.Lay(), s', b)
    requires Times(BlockBytes(v.Lay()), b) < s' && (s == s' || s' <= Times(BlockBytes(v.Lay()), b + 1))
    requires Block(v.entries, NodeFile(v, node), b) != 0 ==> oldSize == s
    modifies v, node`db, node`ib, node`blocks
    ensures v.Valid() && |node.ib| == 3
    ensures Where(v.entries, b).Beyond? ==> r == Some(Efbig)
    ensures !Where(v.entries, b).Beyond? && r.Some? ==> v.Refusal(r.value, old(Lengths(v.Lay(), NodeFile(v, node), oldSize, newSize, b)))
    ensures !Where(v.entries, b).Beyond? && old(CanFill(v, node, oldSize, newSize, b)) ==> r.None?
    ensures r.None? ==> Filled(v, node, oldSize, newSize, b)
    ensures r.None? ==>
      && NodeOk(v, node, s')
      && Bytes(v, node, s') == old(Bytes(v, node, s)) + Zeros(s' - s)
      && Step(v.fsize, old(Img(v)), Img(v), old(NodeHeld(v, node, s)), NodeHeld(v, node, s'))
      && Block(v.entries, NodeFile(v, node), b) != 0
      && (forall j: nat | j != b :: Block(v.entries, NodeFile(v, node), j) == old(Block(v.entries, NodeFile(v, node), j)))
  {
    hide Block, FileHeld, Times, Quot, HasBytes, SameFrag, Exclusive, Extent, FileFrags, Sound, Held, Conserved, CountsValid,
      IsFree,
      Load, Union, GrownBytes, Kept, Content, Untouched, Base, NothingPast, Zeros, OnlyPartial, Route, Lens, BlockBytes, CanFill,
      Filled, Where, Lengths;
    ghost var l, m, f, blocks := v.Lay(), Img(v), NodeFile(v, node), node.blocks;
    FragsAtEnd(l, f, s, b);
    r := GrowBlock(v, node, b, oldSize, newSize, preferred, Lens(l, s));
    if r.None? {
      ghost var f', x := NodeFile(v, node), Block(l.entries, f, b);
      ghost var after := FileFrags(l, s', b);
      GrownOk(l, v.spf, m, Img(v), f, f', s, s', b, oldSize, blocks, node.blocks, GrownBytes(l, m.d, x, Kept(l, x, oldSize, b), after));
      GrownContent(l, m, Img(v), f, f', s, s', b, oldSize);
    }
  }

  lemma FragsAtEnd(l: Layout, f: File, s: nat, b: nat)
    requires ValidLayout(l) && |f.db| == DIRECT && |f.trees| == 3 && NothingPast(l, f, s)
    ensures Block(l.entries, f, b) != 0 ==> FileFrags(l, s, b) == RunLen(l.g.frag, Lens(l, s), b)
  {
    hide Block;
    if Block(l.entries, f, b) != 0 { FragsOfBlock(l, f, s, b); }
  }

  // ----- growing a file -----

  /** Where the block holding the last byte of a file lies. */
  lemma LastBlock(l: Layout, size: nat, last: nat)
    requires ValidLayout(l) && 0 < size && last == Quot(BlockBytes(l), size - 1)
    ensures Times(BlockBytes(l), last) < size <= Times(BlockBytes(l), last + 1)
  {
  }

  /** With the old size on a block boundary, or its tail in the block that grows, no other block is partial. */
  lemma TailOnly(l: Layout, s: nat, s': nat, b: nat)
    requires ValidLayout(l)
    requires Times(BlockBytes(l), b) <= s || exists k: nat :: Times(BlockBytes(l), k) == s
    requires s <= Times(BlockBytes(l), b + 1)
    ensures OnlyPartial(l, s, s', b)
  {
    hide Extent;
    var bs := BlockBytes(l);
    forall i: nat | i != b && !WholeIn(l, s, i) ensures Extent(l, s) <= i {
      ExtentExact(l, s, i);
      if Times(bs, b) <= s {
        if i < b { TimesMonotone(bs, i, b); } else { TimesMonotone(bs, b, i); }
      } else {
        var k: nat :| Times(bs, k) == s;
        if i < k { TimesMonotone(bs, i, k); } else if k < i { TimesMonotone(bs, k, i); }
      }
    }
  }

  /** A file whose tail block is a hole is also a file of the rounded-up size, padded with zeros. */
  lemma HoleTail(l: Layout, spf: nat, m: Image, f: File, s: nat, tail: nat, s': nat, blocks: nat)
    requires ValidLayout(l) && FileOk(l, spf, m, f, s, blocks) && Block(l.entries, f, tail) == 0
    requires Times(BlockBytes(l), tail) < s <= s' == Times(BlockBytes(l), tail + 1) && s' <= MAX_SIZE
    ensures FileOk(l, spf, m, f, s', blocks)
    ensures FileHeld(l.g.frag, f, Lens(l, s'), true) == FileHeld(l.g.frag, f, Lens(l, s), true)
    ensures Content(l, m.d, f, s') == Content(l, m.d, f, s) + Zeros(s' - s)
  {
    hide Block, FileHeld, Extent, FileFrags, ByteAt, Sound, Exclusive;
    var bs := BlockBytes(l);
    ExtentExact(l, s, tail);
    ExtentGrows(l, s, s', tail);
    ExtentExact(l, s, tail + 1);
    forall i | 0 <= i < DIRECT ensures f.db[i] != 0 ==> Lens(l, s')[i] == Lens(l, s)[i] {
      HoleLens(l, f, s, tail, s', i);
    }
    SameRuns(l, f, Lens(l, s), Lens(l, s'));
    forall p | s <= p < s' ensures ByteAt(l, m.d, f, p) == 0 {
      QuotUnique(bs, tail, p - Times(bs, tail));
      HoleByte(l, m.d, f, p);
    }
  }

  lemma HoleByte(l: Layout, d: seq<Byte>, f: File, p: nat)
    requires ValidLayout(l) && |f.db| == DIRECT && |f.trees| == 3 && Block(l.entries, f, Quot(BlockBytes(l), p)) == 0
    ensures ByteAt(l, d, f, p) == 0
  {
  }

  lemma HoleLens(l: Layout, f: File, s: nat, tail: nat, s': nat, i: nat)
    requires ValidLayout(l) && |f.db| == DIRECT && |f.trees| == 3 && Block(l.entries, f, tail) == 0 && NothingPast(l, f, s)
    requires Times(BlockBytes(l), tail) < s <= s' == Times(BlockBytes(l), tail + 1) && i < DIRECT
    ensures f.db[i] != 0 ==> FileFrags(l, s', i) == FileFrags(l, s, i)
  {
    hide Extent, FileFrags;
    assert Block(l.entries, f, i) == f.db[i];
    if f.db[i] != 0 {
      ExtentExact(l, s, i);
      if tail < i { TimesMonotone(BlockBytes(l), tail, i); } else { TimesMonotone(BlockBytes(l), i, tail); }
      WholeFrags(l, s, i);
      WholeFrags(l, s', i);
    }
  }

  lemma ZerosAdd(s: seq<Byte>, a: nat, b: nat)
    ensures (s + Zeros(a)) + Zeros(b) == s + Zeros(a + b)
  {
  }

  /** What a successful growth step means for a file's owner and for everyone else. */
  twostate predicate GrewTo(v: Volume, node: Node, s: nat, s': nat)
    requires old(NodeOk(v, node, s)) && s <= s'
    reads v, node
  {
    && NodeOk(v, node, s')
    && Bytes(v, node, s') == old(Bytes(v, node, s)) + Zeros(s' - s)
    && Step(v.fsize, old(Img(v)), Img(v), old(NodeHeld(v, node, s)), NodeHeld(v, node, s'))
  }

  lemma TailFacts(l: Layout, s: nat, size: nat, tail: nat, last: nat)
    requires ValidLayout(l) && s < size && tail == Quot(BlockBytes(l), s) && last == Quot(BlockBytes(l), size - 1) && tail != last
    requires s != Times(BlockBytes(l), tail)
    ensures var s1 := Times(BlockBytes(l), tail + 1);
      && Times(BlockBytes(l), tail) < s <= s1 && s1 < size && tail < last
      && FileFrags(l, size, tail) == FileFrags(l, s1, tail)
      && OnlyPartial(l, s, s1, tail)
  {
    var bs := BlockBytes(l);
    var s1 := Times(bs, tail + 1);
    if last < tail { TimesMonotone(bs, last, tail); }
    assert tail < last;
    TimesMonotone(bs, tail, last);
    WholeFrags(l, s1, tail);
    WholeFrags(l, size, tail);
    TailOnly(l, s, s1, tail);
  }

  /** The old direct tail must become a full block before it is interior; a hole stays a hole. */
  method GrowTail(v: Volume, node: Node, s: nat, size: nat, tail: nat, ghost last: nat, preferred: nat) returns (r: Option<Errno>)
    requires NodeOk(v, node, s) && s < size <= MAX_SIZE
    requires tail == Quot(BlockBytes(v.Lay()), s) && last == Quot(BlockBytes(v.Lay()), size - 1) && tail != last
    requires s != Times(BlockBytes(v.Lay()), tail)
    modifies v, node`db, node`ib, node`blocks
    ensures v.Valid() && |node.ib| == 3
    ensures s <= Times(BlockBytes(v.Lay()), tail + 1) < size && tail < last
    ensures r.Some? ==> v.Refusal(r.value, old(Lengths(v.Lay(), NodeFile(v, node), s, size, tail)))
    ensures old(Block(v.entries, NodeFile(v, node), tail)) == 0 ==> r.None? && unchanged(v) && unchanged(node)
    ensures old(CanFill(v, node, s, size, tail)) ==> r.None?
    ensures r.None? ==> GrewTo(v, node, s, Times(BlockBytes(v.Lay()), tail + 1)) && |node.db| == DIRECT
    ensures r.None? && old(Block(v.entries, NodeFile(v, node), tail)) != 0 ==>
      Filled(v, node, s, size, tail) && OthersSame(v.Lay(), old(NodeFile(v, node)), NodeFile(v, node), tail)
  {
    hide Block, FileHeld, Times, Quot, SameFrag, Exclusive, Extent, FileFrags, Sound, Held, Conserved, CountsValid, IsFree,
      Load, Union, Content, Untouched, Base, NothingPast, Zeros, OnlyPartial, Route, Lens, BlockBytes, OneBlocks, OneFrags, FileNodes, NodesLess, Where,
      Lengths;
    ghost var l := v.Lay();
    TailInside(l, NodeFile(v, node), s, tail);
    TailFacts(l, s, size, tail, last);
    ghost var s1 := Times(BlockBytes(l), tail + 1);
    var found := Resolved(v, node, tail, Lens(l, s));     // cannot fail inside the file
    if found.value != 0 {
      r := GrowTo(v, node, tail, s, size, preferred, s, s1);
    } else {
      HoleTail(l, v.spf, Img(v), NodeFile(v, node), s, tail, s1, node.blocks);
      StepNowhere(v.fsize, Img(v), NodeHeld(v, node, s));
      return None;
    }
  }

  /** Block `b` is there, and every other block is where it was. */
  ghost predicate OthersSame(l: Layout, f: File, f': File, b: nat)
    requires ValidLayout(l) && |f.db| == |f'.db| == DIRECT && |f.trees| == |f'.trees| == 3
  {
    Block(l.entries, f', b) != 0 && forall j: nat | j != b :: Block(l.entries, f', j) == Block(l.entries, f, j)
  }

  lemma TailInside(l: Layout, f: File, s: nat, tail: nat)
    requires ValidLayout(l) && |f.db| == DIRECT && |f.trees| == 3 && Extent(l, s) <= Base(l.entries, 3)
    requires tail == Quot(BlockBytes(l), s) && s != Times(BlockBytes(l), tail)
    ensures !Where(l.entries, tail).Beyond?
  {
    hide Extent, Base;
    ExtentExact(l, s, tail);
    WhereExact(l.entries, tail);
  }

  lemma StepNowhere(fs: nat, m: Image, own: multiset<nat>)
    ensures Step(fs, m, m, own, own)
  {
  }

  lemma EndFacts(l: Layout, f: File, old0: nat, s: nat, size: nat, last: nat, k: nat)
    requires ValidLayout(l) && |f.db| == DIRECT && |f.trees| == 3 && NothingPast(l, f, s)
    requires s < size && last == Quot(BlockBytes(l), size - 1)
    requires Times(BlockBytes(l), k) == s || (s == old0 && Times(BlockBytes(l), last) <= s)
    requires s == old0 || k <= last
    ensures OnlyPartial(l, s, size, last) && (Block(l.entries, f, last) != 0 ==> old0 == s)
    ensures Times(BlockBytes(l), last) < size <= Times(BlockBytes(l), last + 1)
  {
    hide Block, Extent;
    var bs := BlockBytes(l);
    LastBlock(l, size, last);
    TailOnly(l, s, size, last);
    ExtentExact(l, s, last);
    if k < last { TimesMonotone(bs, k, last); }
  }

  lemma DivFacts(l: Layout, s: nat)
    requires ValidLayout(l)
    ensures s / BlockBytes(l) == Quot(BlockBytes(l), s)
    ensures s % BlockBytes(l) == s - Times(BlockBytes(l), Quot(BlockBytes(l), s))
  {
    QuotIsDivision(BlockBytes(l), s);
  }

  lemma GrewTwice(fs: nat, a: Image, b: Image, c: Image, own: multiset<nat>, own1: multiset<nat>, own2: multiset<nat>,
      x: seq<Byte>, y: seq<Byte>, z: seq<Byte>, j: nat, k: nat)
    requires Step(fs, a, b, own, own1) && Step(fs, b, c, own1, own2) && y == x + Zeros(j) && z == y + Zeros(k)
    ensures Step(fs, a, c, own, own2) && z == x + Zeros(j + k)
  {
    hide Conserved, Untouched, Zeros;
    StepTwice(fs, a, b, c, own, own1, own2);
    ZerosAdd(x, j, k);
  }

  /** The inode can name a block for every byte of a file of this size. */
  ghost predicate Addressable(l: Layout, size: nat)
    requires ValidLayout(l)
  {
    Extent(l, size) <= Base(l.entries, 3)
  }

  /** With the block sizes of the format every permitted size can be addressed. */
  lemma AlwaysAddressable(l: Layout, size: nat)
    requires ValidLayout(l) && 1024 <= l.entries && size <= MAX_SIZE
    ensures Addressable(l, size)
  {
    hide Extent, Base;
    var n, b := l.entries, Base(l.entries, 3);
    ManyBlocks(n);
    ExtentExact(l, size, b);
    TimesIsProduct(BlockBytes(l), b);
    Enough(b, BlockBytes(l));
  }

  lemma Enough(b: nat, bs: nat)
    requires 0x10_0000 <= b && 4096 <= bs
    ensures 0x7FFF_FFFF < b * bs
  {
  }

  lemma ManyBlocks(n: nat)
    requires 1024 <= n
    ensures 0x10_0000 <= Base(n, 3)
  {
    hide Times;
    OneSpan(n);
    TimesIsProduct(n, n);
    assert Span(n, 2) == Times(Span(n, 1), n);
    assert Base(n, 2) >= Span(n, 2) >= 1024 * 1024;
  }

  /** The block that holds the last byte. */
  function Last(l: Layout, size: nat): nat
    requires ValidLayout(l) && 0 < size
  {
    Quot(BlockBytes(l), size - 1)
  }

  /** The volume affords what growing the file to `size` takes. */
  ghost predicate CanResize(v: Volume, node: Node, size: nat)
    requires v.Valid() && |node.ib| == 3 && |node.db| == DIRECT && 0 < size
    reads v, node
  {
    var l, f, b := v.Lay(), NodeFile(v, node), Last(v.Lay(), size);
    v.Affords(NeedBlocks(l, f, node.size, size, b, b + 1), NeedFrags(l, f, node.size, size, b, b + 1))
  }

  /** No more than that was taken, and the last block is there. */
  twostate predicate ResizePaid(v: Volume, node: Node, size: nat)
    requires old(v.Valid()) && old(|node.ib| == 3 && |node.db| == DIRECT) && v.Valid() && |node.ib| == 3 && |node.db| == DIRECT && 0 < size
    reads v, node
  {
    var l, b, s := v.Lay(), Last(v.Lay(), size), old(node.size);
    && v.Spent(old(NeedBlocks(l, NodeFile(v, node), s, size, b, b + 1)), old(NeedFrags(l, NodeFile(v, node), s, size, b, b + 1)))
    && FilledFile(l, old(NodeFile(v, node)), NodeFile(v, node), b)
  }

  /** What the old tail asks for is all it takes. */
  lemma TailNeeds(l: Layout, f: File, s: nat, size: nat, tail: nat, last: nat)
    requires ValidLayout(l) && |f.db| == DIRECT && |f.trees| == 3 && tail == Quot(BlockBytes(l), s) && tail != last
    ensures Block(l.entries, f, tail) != 0 ==>
      && OneBlocks(l, f, s, size, tail) == Runs(TailAsk(l, f, s, size, last, last + 1))
      && OneFrags(l, f, s, size, tail) == TailAsk(l, f, s, size, last, last + 1)
  {
    hide Block, FileNodes, FileFrags, Quot;
    if Block(l.entries, f, tail) != 0 {
      BlockNodes(l.entries, f, tail);
    }
  }

  /** Filling the old tail asks for nothing that the last block needs. */
  lemma TailStep(l: Layout, f: File, f': File, s: nat, size: nat, tail: nat, last: nat)
    requires ValidLayout(l) && |f.db| == |f'.db| == DIRECT && |f.trees| == |f'.trees| == 3
    requires tail == Quot(BlockBytes(l), s) && tail != last && Block(l.entries, f, tail) != 0
    requires OthersSame(l, f, f', tail) && NodesLess(l.entries, f, f', FileNodes(l.entries, f, tail))
    ensures TailDone(l, f, f', s, size, last)
  {
    hide Block, FileNodes, FileFrags, Quot;
    BlockNodes(l.entries, f, tail);
    forall j: nat
      ensures FileNodes(l.entries, f', j) == FileNodes(l.entries, f, j)
      ensures Block(l.entries, f', j) == 0 <==> Block(l.entries, f, j) == 0
    {
      assert FileNodes(l.entries, f', j) == FileNodes(l.entries, f, j) - FileNodes(l.entries, f, tail);
    }
  }

  /** The same holes, and the same needs of the last block. */
  ghost predicate TailDone(l: Layout, f: File, f': File, s: nat, size: nat, last: nat)
    requires ValidLayout(l) && |f.db| == |f'.db| == DIRECT && |f.trees| == |f'.trees| == 3
  {
    && (forall j: nat :: Block(l.entries, f', j) == 0 <==> Block(l.entries, f, j) == 0)
    && (forall j: nat :: FileNodes(l.entries, f', j) == FileNodes(l.entries, f, j))
    && OneBlocks(l, f', s, size, last) == OneBlocks(l, f, s, size, last)
    && OneFrags(l, f', s, size, last) == OneFrags(l, f, s, size, last)
  }

  lemma NoTailStep(l: Layout, f: File, s: nat, size: nat, tail: nat, last: nat)
    requires ValidLayout(l) && |f.db| == DIRECT && |f.trees| == 3 && tail == Quot(BlockBytes(l), s)
    requires tail == last || Block(l.entries, f, tail) == 0
    ensures TailAsk(l, f, s, size, last, last + 1) == 0 && TailDone(l, f, f, s, size, last)
  {
    hide Block, FileNodes;
  }

  lemma EndIsHole(l: Layout, f: File, s: nat, tail: nat)
    requires ValidLayout(l) && |f.db| == DIRECT && |f.trees| == 3 && NothingPast(l, f, s)
    requires s == Times(BlockBytes(l), tail)
    ensures Block(l.entries, f, tail) == 0
  {
    hide Block, Extent;
    ExtentExact(l, s, tail);
  }

  /** After the tail, the last block: together the holes of the file and its lacking index blocks are those of
      before, without those of the last block. */
  lemma LastStep(l: Layout, f: File, f1: File, f2: File, s: nat, size: nat, last: nat)
    requires ValidLayout(l) && |f.db| == |f1.db| == |f2.db| == DIRECT && |f.trees| == |f1.trees| == |f2.trees| == 3
    requires TailDone(l, f, f1, s, size, last) && OthersSame(l, f1, f2, last)
    requires NodesLess(l.entries, f1, f2, FileNodes(l.entries, f1, last))
    ensures FilledFile(l, f, f2, last)
  {
    hide Block, FileNodes;
    forall j: nat | j != last
      ensures Block(l.entries, f2, j) == 0 <==> Block(l.entries, f, j) == 0
    {
      assert Block(l.entries, f1, j) == 0 <==> Block(l.entries, f, j) == 0;
    }
    forall j: nat
      ensures FileNodes(l.entries, f2, j) == FileNodes(l.entries, f, j) - FileNodes(l.entries, f, last)
    {
      assert FileNodes(l.entries, f1, j) == FileNodes(l.entries, f, j);
    }
  }

  ghost function TailWants(v: Volume, node: Node, size: nat, last: nat): nat
    requires v.Valid() && |node.ib| == 3 && |node.db| == DIRECT
    reads v, node
  {
    TailAsk(v.Lay(), NodeFile(v, node), node.size, size, last, last + 1)
  }

  /** The step that fills the old tail, if there is one; `s1` is the size of the file after it. */
  method GrowOldTail(v: Volume, node: Node, size: nat, tail: nat, last: nat, preferred: nat) returns (r: Option<Errno>, ghost s1: nat)
    requires NodeOk(v, node, node.size) && node.size < size <= MAX_SIZE
    requires tail == Quot(BlockBytes(v.Lay()), node.size) && last == Quot(BlockBytes(v.Lay()), size - 1)
    modifies v, node`db, node`ib, node`blocks
    ensures v.Valid() && |node.ib| == 3
    ensures r.Some? ==> v.Refusal(r.value, IfAny(old(TailWants(v, node, size, last)), old(TailWants(v, node, size, last))))
    ensures old(v.Affords(Runs(TailWants(v, node, size, last)), TailWants(v, node, size, last))) ==> r.None?
    ensures r.None? ==> node.size <= s1 < size && GrewTo(v, node, node.size, s1) && |node.db| == DIRECT
    ensures r.None? ==> TailDone(v.Lay(), old(NodeFile(v, node)), NodeFile(v, node), node.size, size, last)
    ensures r.None? ==> v.Spent(Runs(old(TailWants(v, node, size, last))), old(TailWants(v, node, size, last)))
    ensures r.None? ==> OnlyPartial(v.Lay(), s1, size, last)
    ensures r.None? && Block(v.entries, NodeFile(v, node), last) != 0 ==> node.size == s1
  {
    hide Block, FileHeld, Times, Quot, SameFrag, Exclusive, Extent, FileFrags, Sound, Held, Conserved, CountsValid, IsFree,
      Load, Union, Content, Untouched, Base, Zeros, OnlyPartial, Route, Lens, Step, Ask, TailAsk, TailDone, OneBlocks, OneFrags, OthersSame,
      NodesLess, Lengths;
    ghost var l, s, f := v.Lay(), node.size, NodeFile(v, node);
    DivFacts(l, s);
    s1 := s;
    ghost var k := tail;
    if node.size % (4 * v.entries) != 0 && tail != last {
      TailNeeds(l, f, s, size, tail, last);
      r := GrowTail(v, node, node.size, size, tail, last, preferred);
      if r.Some? {
        TailLengths(l, f, s, size, tail, last);
        return;
      }
      s1, k := Times(BlockBytes(l), tail + 1), tail + 1;
      if Block(l.entries, f, tail) != 0 {
        TailStep(l, f, NodeFile(v, node), s, size, tail, last);
      } else {
        NoTailStep(l, f, s, size, tail, last);
      }
    } else {
      r := None;
      if tail != last {
        EndIsHole(l, f, s, tail);
      }
      NoTailStep(l, f, s, size, tail, last);
      StepNowhere(v.fsize, Img(v), NodeHeld(v, node, s));
      assert Bytes(v, node, s) + Zeros(0) == Bytes(v, node, s) by { ZerosNone(Bytes(v, node, s)); }
    }
    EndFacts(l, NodeFile(v, node), s, s1, size, last, k);
  }

  lemma ZerosNone(s: seq<Byte>)
    ensures s + Zeros(0) == s
  {
  }

  /** The old tail asks for one run and no index block. */
  lemma TailLengths(l: Layout, f: File, s: nat, size: nat, tail: nat, last: nat)
    requires ValidLayout(l) && |f.db| == DIRECT && |f.trees| == 3 && tail == Quot(BlockBytes(l), s) && tail != last
    requires Block(l.entries, f, tail) != 0
    ensures var n := TailAsk(l, f, s, size, last, last + 1); Lengths(l, f, s, size, tail) == IfAny(n, n)
  {
    hide Block, FileNodes, FileFrags, Quot, Ask;
    BlockNodes(l.entries, f, tail);
  }

  lemma SameLengths(l: Layout, f: File, f': File, s: nat, size: nat, last: nat)
    requires ValidLayout(l) && |f.db| == |f'.db| == DIRECT && |f.trees| == |f'.trees| == 3 && TailDone(l, f, f', s, size, last)
    ensures Lengths(l, f', s, size, last) == Lengths(l, f, s, size, last)
  {
    hide Block, FileNodes, FileFrags;
    assert Block(l.entries, f', last) == 0 <==> Block(l.entries, f, last) == 0;
    assert FileNodes(l.entries, f', last) == FileNodes(l.entries, f, last);
  }

  lemma LengthsOfLast(l: Layout, f: File, s: nat, size: nat, last: nat)
    requires ValidLayout(l) && |f.db| == DIRECT && |f.trees| == 3
    ensures var n := TailAsk(l, f, s, size, last, last + 1);
      NeedLengths(l, f, s, size, last, last + 1) == IfAny(n, n) + Lengths(l, f, s, size, last)
  {
    hide Lengths, TailAsk;
    assert LengthsIn(l, f, s, size, last, last) == {};
  }

  /** The lengths of the runs that growing to `size` asks for. */
  ghost function GrowLengths(v: Volume, node: Node, size: nat): set<nat>
    requires v.Valid() && |node.ib| == 3 && |node.db| == DIRECT && 0 < size
    reads v, node
  {
    var b := Last(v.Lay(), size);
    NeedLengths(v.Lay(), NodeFile(v, node), node.size, size, b, b + 1)
  }

  /** The growing half of `nextufs__file_resize`. */
  method Grow(v: Volume, node: Node, size: nat, preferred: nat) returns (r: Option<Errno>)
    requires NodeOk(v, node, node.size) && node.size < size <= MAX_SIZE
    modifies v, node`db, node`ib, node`blocks
    ensures v.Valid()
    ensures r.Some? ==> v.Refusal(r.value, old(GrowLengths(v, node, size))) || (r == Some(Efbig) && !Addressable(v.Lay(), size))
    ensures Addressable(v.Lay(), size) && old(CanResize(v, node, size)) ==> r.None?
    ensures r.None? ==> GrewTo(v, node, node.size, size) && |node.db| == DIRECT && ResizePaid(v, node, size)
  {
    hide Block, FileHeld, Times, Quot, SameFrag, Exclusive, Extent, FileFrags, Sound, Held, Conserved, CountsValid, IsFree,
      Load, Union, Content, Untouched, Base, Zeros, OnlyPartial, Route, Lens, Step, Ask, TailAsk, TailDone, OneBlocks, OneFrags, OthersSame,
      NodesLess, FilledFile, NeedBlocks, NeedFrags, NeedLengths, Lengths, Where;
    ghost var l, s, m, x, own := v.Lay(), node.size, Img(v), Bytes(v, node, node.size), NodeHeld(v, node, node.size);
    ghost var f := NodeFile(v, node);
    var bs := 4 * v.entries;
    DivFacts(l, size - 1);
    DivFacts(l, s);
    var last, tail := (size - 1) / bs, node.size / bs;
    LastPlaced(l, size, last);
    NeedOne(l, f, s, size, last);
    ghost var s1;
    LengthsOfLast(l, f, s, size, last);
    r, s1 := GrowOldTail(v, node, size, tail, last, preferred);
    if r.Some? {
      ghost var n := TailAsk(l, f, s, size, last, last + 1);
      v.RefusalMore(r.value, IfAny(n, n), NeedLengths(l, f, s, size, last, last + 1));
      return;
    }
    ghost var m1, y, own1, f1 := Img(v), Bytes(v, node, s1), NodeHeld(v, node, s1), NodeFile(v, node);
    SameNeeds(l, f, f1, s, size, last);
    SameLengths(l, f, f1, s, size, last);
    r := GrowTo(v, node, last, node.size, size, preferred, s1, size);
    if r.Some? {
      if r != Some(Efbig) || !Where(l.entries, last).Beyond? {
        v.RefusalMore(r.value, Lengths(l, f, s, size, last), NeedLengths(l, f, s, size, last, last + 1));
      }
    } else {
      GrewTwice(v.fsize, m, m1, Img(v), own, own1, NodeHeld(v, node, size), x, y, Bytes(v, node, size), s1 - s, size - s1);
      SameOthers(l, f1, NodeFile(v, node), last);
      LastStep(l, f, f1, NodeFile(v, node), s, size, last);
    }
  }

  lemma SameNeeds(l: Layout, f: File, f': File, s: nat, size: nat, last: nat)
    requires ValidLayout(l) && |f.db| == |f'.db| == DIRECT && |f.trees| == |f'.trees| == 3 && TailDone(l, f, f', s, size, last)
    ensures OneBlocks(l, f', s, size, last) == OneBlocks(l, f, s, size, last)
    ensures OneFrags(l, f', s, size, last) == OneFrags(l, f, s, size, last)
  {
  }

  lemma SameOthers(l: Layout, f: File, f': File, b: nat)
    requires ValidLayout(l) && |f.db| == |f'.db| == DIRECT && |f.trees| == |f'.trees| == 3
    requires Block(l.entries, f', b) != 0 && forall j: nat | j != b :: Block(l.entries, f', j) == Block(l.entries, f, j)
    ensures OthersSame(l, f, f', b)
  {
  }

  lemma LastPlaced(l: Layout, size: nat, last: nat)
    requires ValidLayout(l) && 0 < size && last == Quot(BlockBytes(l), size - 1)
    ensures Where(l.entries, last).Beyond? <==> !Addressable(l, size)
    ensures Times(BlockBytes(l), last) < size <= Times(BlockBytes(l), last + 1)
  {
    hide Extent, Base;
    LastBlock(l, size, last);
    WhereExact(l.entries, last);
    ExtentGrows(l, 0, size, last);
    ExtentExact(l, size, last);
    ExtentExact(l, size, last + 1);
  }
}
