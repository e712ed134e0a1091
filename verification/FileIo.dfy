/** The file operations as a caller sees them: resize, write and read on the bytes of one file, with
    every other file untouched. */
module FileIo {
  import opened Scale
  import opened Ledger
  import opened Options
  import opened Volume
  import opened BlockTree
  import opened IndirectBlocks
  import opened Files
  import opened Resolve
  import opened FileMutate
  import opened FileNeeds
  import opened FileResize
  import opened FileShrink

  /** A file cut to, or padded with zeros up to, a size. */
  function Resized(s: seq<Byte>, size: nat): (r: seq<Byte>)
    ensures |r| == size
  {
    if size <= |s| then s[..size] else s + Zeros(size - |s|)
  }

  /** A file with `data` written at `offset`; a gap is filled with zeros. */
  function Written(s: seq<Byte>, offset: nat, data: seq<Byte>): (r: seq<Byte>)
    ensures |data| == 0 ==> r == s
    ensures |data| > 0 ==> |r| == if offset + |data| > |s| then offset + |data| else |s|
  {
    if |data| == 0 then s
    else Put(if offset + |data| > |s| then Resized(s, offset + |data|) else s, offset, data)
  }

  /** The inode describes a file at rest on this volume. */
  ghost predicate AtRest(v: Volume, node: Node)
    reads v, node
  {
    NodeOk(v, node, node.size)
  }

  lemma RestShape(v: Volume, node: Node)
    requires AtRest(v, node)
    ensures |node.db| == DIRECT && |NodeFile(v, node).trees| == 3
  {
  }

  ghost function FileBytes(v: Volume, node: Node): (s: seq<Byte>)
    requires AtRest(v, node)
    reads v, node
    ensures |s| == node.size
  {
    Bytes(v, node, node.size)
  }

  ghost function OwnedBy(v: Volume, node: Node): multiset<nat>
    requires AtRest(v, node)
    reads v, node
  {
    NodeHeld(v, node, node.size)
  }

  /** `nextufs__file_resize`. A shrink, and a resize to the same size, cannot fail. */
  method Resize(v: Volume, node: Node, size: nat, preferred: nat) returns (r: Option<Errno>)
    requires AtRest(v, node)
    modifies v, node
    ensures v.Valid()
    ensures size > MAX_SIZE ==> r == Some(Efbig) && unchanged(v) && unchanged(node)
    ensures size <= old(node.size) ==> r.None?
    ensures r.Some? ==> r == Some(Efbig) || (old(node.size) < size && v.Refusal(r.value, old(GrowLengths(v, node, size))))
    ensures 1024 <= v.entries ==> (r == Some(Efbig) <==> size > MAX_SIZE)
    ensures r == Some(Efbig) && size <= MAX_SIZE ==> !Addressable(v.Lay(), size)
    ensures old(node.size) < size <= MAX_SIZE && Addressable(v.Lay(), size) && old(CanResize(v, node, size)) ==> r.None?
    ensures r.None? && old(node.size) < size ==> AtRest(v, node) && |node.db| == DIRECT && ResizePaid(v, node, size)
    ensures r.None? ==>
      && AtRest(v, node)
      && FileBytes(v, node) == Resized(old(FileBytes(v, node)), size)
      && Step(v.fsize, old(Img(v)), Img(v), old(OwnedBy(v, node)), OwnedBy(v, node))
    ensures r.None? && size < old(node.size) ==> TailZeroed(v.Lay(), v.data, NodeFile(v, node), size)
  {
    hide TailZeroed, Step, Good, NothingPast, Content, FileHeld, Load, Lens, CountsValid, IsFree, Extent, Base, Times,
      Addressable, CanResize, NeedBlocks, NeedFrags, NeedLengths, FilledFile;
    RestShape(v, node);
    if size > MAX_SIZE {
      return Some(Efbig);
    }
    if 1024 <= v.entries {
      AlwaysAddressable(v.Lay(), size);
    }
    if size == node.size {
      StepNowhere(v.fsize, Img(v), OwnedBy(v, node));
      return None;
    }
    if size > node.size {
      r := Grow(v, node, size, preferred);
      if r.Some? {
        return;
      }
    } else {
      r := Shrink(v, node, size);
    }
    node.size := size;
  }

  // ----- writing -----

  /** Position `pos` in its block, and how many of `n` bytes fit there. */
  lemma ChunkFacts(l: Layout, f: File, size: nat, pos: nat, n: nat)
    requires ValidLayout(l) && 0 < n && pos + n <= size && |f.db| == DIRECT && |f.trees| == 3 && Extent(l, size) <= Base(l.entries, 3)
    ensures var b := pos / BlockBytes(l); var within := pos % BlockBytes(l);
      && b == Quot(BlockBytes(l), pos) && within == pos - Times(BlockBytes(l), b)
      && Times(BlockBytes(l), b) < size && !Where(l.entries, b).Beyond?
  {
    hide Extent;
    DivFacts(l, pos);
    TailPlaced(l, f, size, Quot(BlockBytes(l), pos));
  }

  /** A chunk inside one block of the file lies inside the block's run. */
  lemma ChunkFits(l: Layout, m: Image, f: File, size: nat, b: nat, within: nat, n: nat)
    requires ValidLayout(l) && Good(l, m, f, Lens(l, size)) && NothingPast(l, f, size) && Block(l.entries, f, b) != 0
    requires 0 < n && within + n <= BlockBytes(l) && Times(BlockBytes(l), b) + within + n <= size
    ensures var k := FileFrags(l, size, b);
      within + n <= Times(l.fs, k) && Times(l.fs, Block(l.entries, f, b)) + Times(l.fs, k) <= |m.d|
  {
    hide Block, Extent, Sound;
    FragsOfBlock(l, f, size, b);
    BlockRun(l, f, Lens(l, size), b);
    InsideSlice(l, Block(l.entries, f, b), FileFrags(l, size, b));
    RunFits(l, Block(l.entries, f, b), FileFrags(l, size, b));
    var p := Times(BlockBytes(l), b) + within + n - 1;
    QuotUnique(BlockBytes(l), b, within + n - 1);
    ByteInRun(l, size, p);
  }

  lemma PatchedContent(l: Layout, d: seq<Byte>, d': seq<Byte>, f: File, size: nat, b: nat, within: nat, s: seq<Byte>)
    requires ValidLayout(l) && |f.db| == DIRECT && |f.trees| == 3 && within + |s| <= BlockBytes(l)
    requires Times(BlockBytes(l), b) + within + |s| <= size
    requires forall p: nat | p < size :: PatchedAt(l, d, d', f, b, within, s, p)
    ensures Content(l, d', f, size) == Put(Content(l, d, f, size), Times(BlockBytes(l), b) + within, s)
  {
    hide ByteAt, Times, Quot;
    var pos := Times(BlockBytes(l), b) + within;
    forall p: nat | p < size
      ensures ByteAt(l, d', f, p) == if pos <= p < pos + |s| then s[p - pos] else ByteAt(l, d, f, p)
    {
      assert PatchedAt(l, d, d', f, b, within, s, p);
      if pos <= p < pos + |s| { QuotUnique(BlockBytes(l), b, p - Times(BlockBytes(l), b)); }
    }
  }

  /** Writes part of one allocated block. */
  method WriteChunk(v: Volume, node: Node, b: nat, within: nat, s: seq<Byte>, x: nat)
    requires AtRest(v, node) && x == Block(v.entries, NodeFile(v, node), b) && x != 0
    requires 0 < |s| && within + |s| <= BlockBytes(v.Lay()) && Times(BlockBytes(v.Lay()), b) + within + |s| <= node.size
    modifies v`data
    ensures AtRest(v, node) && NodeFile(v, node) == old(NodeFile(v, node))
    ensures FileBytes(v, node) == Put(old(FileBytes(v, node)), Times(BlockBytes(v.Lay()), b) + within, s)
    ensures Step(v.fsize, old(Img(v)), Img(v), old(OwnedBy(v, node)), OwnedBy(v, node))
  {
    hide Block, FileHeld, Sound, Held, Conserved, Exclusive, FileFrags, Extent, SameFrag, Load, CountsValid, IsFree, Content, Put,
      Route, Base, Untouched, Times, Quot;
    ghost var l, m, own := v.Lay(), Img(v), OwnedBy(v, node);
    ChunkFits(l, m, NodeFile(v, node), node.size, b, within, |s|);
    var p := Mul(v.fsize, x);
    PatchedFile(l, m, Put(v.data, p + within, s), node.db, node.ib, node.size, b, within, s);
    PatchedContent(l, v.data, Put(v.data, p + within, s), NodeFile(v, node), node.size, b, within, s);
    v.data := Put(v.data, p + within, s);
    StepInPlace(v.fsize, m, Img(v), own);
  }

  /** Filling block `b` took no more than it needs. */
  twostate predicate PieceFilled(v: Volume, node: Node, b: nat)
    requires old(v.Valid()) && old(|node.ib| == 3 && |node.db| == DIRECT) && v.Valid() && |node.ib| == 3 && |node.db| == DIRECT
    reads v, node
  {
    var l, s := v.Lay(), old(node.size);
    && v.Spent(old(OneBlocks(l, NodeFile(v, node), s, s, b)), old(OneFrags(l, NodeFile(v, node), s, s, b)))
    && FilledFile(l, old(NodeFile(v, node)), NodeFile(v, node), b)
  }

  /** The volume affords what is still needed for the blocks `[lo, hi)` of the file. */
  ghost predicate CanWrite(v: Volume, node: Node, lo: nat, hi: nat)
    requires v.Valid() && |node.ib| == 3 && |node.db| == DIRECT
    reads v, node
  {
    var l, f := v.Lay(), NodeFile(v, node);
    v.Affords(NeedBlocks(l, f, node.size, node.size, lo, hi), NeedFrags(l, f, node.size, node.size, lo, hi))
  }

  lemma HoleFilled(l: Layout, f: File, f': File, b: nat)
    requires ValidLayout(l) && |f.db| == |f'.db| == DIRECT && |f.trees| == |f'.trees| == 3 && Block(l.entries, f', b) != 0
    requires forall j: nat | j != b :: Block(l.entries, f', j) == Block(l.entries, f, j)
    requires NodesLess(l.entries, f, f', FileNodes(l.entries, f, b))
    ensures FilledFile(l, f, f', b)
  {
  }

  lemma NoPadding(s: seq<Byte>)
    ensures s + Zeros(0) == s
  {
  }

  /** Allocates the block under a position inside the file, if it is a hole. */
  method FillHole(v: Volume, node: Node, b: nat, preferred: nat) returns (r: Result<nat>)
    requires AtRest(v, node) && Times(BlockBytes(v.Lay()), b) < node.size && !Where(v.entries, b).Beyond?
    modifies v, node`db, node`ib, node`blocks
    ensures v.Valid()
    ensures r.Err? ==> v.Refusal(r.error, old(Lengths(v.Lay(), NodeFile(v, node), node.size, node.size, b)))
    ensures old(CanFill(v, node, node.size, node.size, b)) ==> r.Ok?
    ensures r.Ok? ==> AtRest(v, node) && |node.db| == DIRECT && PieceFilled(v, node, b)
    ensures r.Ok? ==>
      && AtRest(v, node) && r.value == Block(v.entries, NodeFile(v, node), b) && r.value != 0
      && FileBytes(v, node) == old(FileBytes(v, node))
      && Step(v.fsize, old(Img(v)), Img(v), old(OwnedBy(v, node)), OwnedBy(v, node))
  {
    hide Block, FileHeld, Sound, Held, Conserved, Exclusive, FileFrags, Extent, SameFrag, Load, CountsValid, IsFree, Content,
      Route, Base, Untouched, Times, Quot, Zeros, Where, FilledFile, NodesLess, FileNodes, OneBlocks, OneFrags, Lengths;
    ghost var f := NodeFile(v, node);
    ghost var lens := Lens(v.Lay(), node.size);
    r := Resolved(v, node, b, lens);
    if r.value != 0 {
      AlreadyFilled(v.Lay(), f, b);
      StepNowhere(v.fsize, Img(v), OwnedBy(v, node));
      return;
    }
    NoPadding(FileBytes(v, node));
    var base := Mul(4 * v.entries, b);
    HoleAsks(v.Lay(), f, base, node.size, node.size, b);
    HoleLengths(v.Lay(), f, base, node.size, node.size, b);
    var grown := GrowTo(v, node, b, base, node.size, preferred, node.size, node.size);
    if grown.Some? {
      return Err(grown.value);
    }
    HoleFilled(v.Lay(), f, NodeFile(v, node), b);
    r := Resolved(v, node, b, lens);
  }

  /** The block that holds position `pos`. */
  ghost function BlockAt(v: Volume, pos: nat): nat
    requires v.Valid()
    reads v
  {
    Quot(BlockBytes(v.Lay()), pos)
  }

  /** Where the next turn starts. */
  lemma NextTurn(l: Layout, pos: nat, n: nat, end: nat)
    requires ValidLayout(l) && pos + n < end && 0 < n
    requires n == BlockBytes(l) - (pos - Times(BlockBytes(l), Quot(BlockBytes(l), pos)))
    ensures Quot(BlockBytes(l), pos + n) == Quot(BlockBytes(l), pos) + 1
  {
    var b := Quot(BlockBytes(l), pos);
    QuotUnique(BlockBytes(l), b + 1, 0);
  }

  lemma InOrder(l: Layout, a: nat, b: nat)
    requires ValidLayout(l) && a <= b
    ensures Quot(BlockBytes(l), a) <= Quot(BlockBytes(l), b)
  {
    var p, q := Quot(BlockBytes(l), a), Quot(BlockBytes(l), b);
    if q < p {
      TimesMonotone(BlockBytes(l), q, p);
    }
  }

  /** The lengths of the runs that filling the holes in the blocks `[lo, hi)` asks for. */
  ghost function WriteLengths(v: Volume, node: Node, lo: nat, hi: nat): set<nat>
    requires v.Valid() && |node.ib| == 3 && |node.db| == DIRECT
    reads v, node
  {
    LengthsIn(v.Lay(), NodeFile(v, node), node.size, node.size, lo, hi)
  }

  /** One turn of the write loop. */
  method WritePiece(v: Volume, node: Node, data: seq<Byte>, offset: nat, done: nat, preferred: nat,
      ghost m: Image, ghost own: multiset<nat>, ghost padded: seq<Byte>) returns (r: Result<nat>)
    requires AtRest(v, node) && done < |data| && offset + |data| <= node.size == |padded|
    requires FileBytes(v, node) == Put(padded, offset, data[..done]) && Step(v.fsize, m, Img(v), own, OwnedBy(v, node))
    modifies v, node`db, node`ib, node`blocks
    ensures v.Valid()
    ensures r.Err? ==> v.Refusal(r.error, old(WriteLengths(v, node, BlockAt(v, offset + done), BlockAt(v, offset + |data| - 1) + 1)))
    ensures r.Ok? ==> AtRest(v, node) && |node.db| == DIRECT
    ensures r.Ok? && r.value < |data| ==>
      WriteLengths(v, node, BlockAt(v, offset + r.value), BlockAt(v, offset + |data| - 1) + 1)
      <= old(WriteLengths(v, node, BlockAt(v, offset + done), BlockAt(v, offset + |data| - 1) + 1))
    ensures old(CanWrite(v, node, BlockAt(v, offset + done), BlockAt(v, offset + |data| - 1) + 1)) ==>
      r.Ok? && (r.value < |data| ==> CanWrite(v, node, BlockAt(v, offset + r.value), BlockAt(v, offset + |data| - 1) + 1))
    ensures r.Ok? ==>
      && AtRest(v, node) && done < r.value <= |data|
      && FileBytes(v, node) == Put(padded, offset, data[..r.value])
      && Step(v.fsize, m, Img(v), own, OwnedBy(v, node))
  {
    hide Block, FileHeld, Sound, Held, Conserved, Exclusive, FileFrags, Extent, SameFrag, Load, CountsValid, IsFree, Content, Put,
      Route, Base, Untouched, Times, Quot, Step, NodeHeld, Bytes, NothingPast, Lens, NeedBlocks, NeedFrags, OneBlocks, OneFrags,
      FilledFile, Lengths, LengthsIn;
    ghost var f, hi := NodeFile(v, node), BlockAt(v, offset + |data| - 1) + 1;
    var pos, bs := offset + done, 4 * v.entries;
    ChunkFacts(v.Lay(), NodeFile(v, node), node.size, pos, |data| - done);
    var logical, within := pos / bs, pos % bs;
    var n := if bs - within > |data| - done then |data| - done else bs - within;
    ghost var own0 := OwnedBy(v, node);
    ghost var m0 := Img(v);
    InOrder(v.Lay(), pos, offset + |data| - 1);
    NeedHas(v.Lay(), f, node.size, logical, hi);
    LengthsHas(v.Lay(), f, node.size, node.size, logical, hi, logical);
    r := FillHole(v, node, logical, preferred);
    if r.Err? {
      v.RefusalMore(r.error, Lengths(v.Lay(), f, node.size, node.size, logical), LengthsIn(v.Lay(), f, node.size, node.size, logical, hi));
      return;
    }
    LengthsStep(v.Lay(), f, NodeFile(v, node), node.size, logical, hi);
    NeedStep(v.Lay(), f, NodeFile(v, node), node.size, logical, hi);
    ghost var own1, m1 := OwnedBy(v, node), Img(v);
    StepTwice(v.fsize, m, m0, m1, own, own0, own1);
    WriteChunk(v, node, logical, within, data[done..done + n], r.value);
    StepTwice(v.fsize, m, m1, Img(v), own, own1, OwnedBy(v, node));
    PutMore(padded, offset, data, done, n);
    if done + n < |data| {
      NextTurn(v.Lay(), pos, n, offset + |data|);
    }
    return Ok(done + n);
  }

  /** The write loop, inside the file. */
  method WritePieces(v: Volume, node: Node, data: seq<Byte>, offset: nat, preferred: nat) returns (r: Option<Errno>)
    requires AtRest(v, node) && |node.db| == DIRECT && 0 < |data| && offset + |data| <= node.size
    modifies v, node`db, node`ib, node`blocks
    ensures v.Valid()
    ensures r.Some? ==> v.Refusal(r.value, old(WriteLengths(v, node, BlockAt(v, offset), BlockAt(v, offset + |data| - 1) + 1)))
    ensures old(CanWrite(v, node, BlockAt(v, offset), BlockAt(v, offset + |data| - 1) + 1)) ==> r.None?
    ensures r.None? ==>
      && AtRest(v, node)
      && FileBytes(v, node) == Put(old(FileBytes(v, node)), offset, data)
      && Step(v.fsize, old(Img(v)), Img(v), old(OwnedBy(v, node)), OwnedBy(v, node))
  {
    hide FileHeld, FileOk, Step, NodeHeld, Bytes, CountsValid, IsFree, Load, Put, Block, NeedBlocks, NeedFrags, CanWrite,
      LengthsIn;
    ghost var m, own, padded := Img(v), OwnedBy(v, node), FileBytes(v, node);
    ghost var lengths := WriteLengths(v, node, BlockAt(v, offset), BlockAt(v, offset + |data| - 1) + 1);
    ghost var calm := CanWrite(v, node, BlockAt(v, offset), BlockAt(v, offset + |data| - 1) + 1);
    StepNowhere(v.fsize, m, own);
    PutNone(padded, offset, data);
    var done := 0;
    while done < |data|
      invariant AtRest(v, node) && |node.db| == DIRECT && 0 <= done <= |data| && offset + |data| <= node.size == |padded|
      invariant FileBytes(v, node) == Put(padded, offset, data[..done])
      invariant Step(v.fsize, m, Img(v), own, OwnedBy(v, node))
      invariant done < |data| ==> WriteLengths(v, node, BlockAt(v, offset + done), BlockAt(v, offset + |data| - 1) + 1) <= lengths
      invariant calm && done < |data| ==> CanWrite(v, node, BlockAt(v, offset + done), BlockAt(v, offset + |data| - 1) + 1)
    {
      ghost var now := WriteLengths(v, node, BlockAt(v, offset + done), BlockAt(v, offset + |data| - 1) + 1);
      var next := WritePiece(v, node, data, offset, done, preferred, m, own, padded);
      if next.Err? {
        v.RefusalMore(next.error, now, lengths);
        return Some(next.error);
      }
      done := next.value;
    }
    assert data[..|data|] == data;
    return None;
  }

  /** The volume affords what writing `n` bytes at `offset` takes: the blocks they lie in and, when the file
      grows, its old tail. */
  ghost predicate CanStore(v: Volume, node: Node, offset: nat, n: nat)
    requires v.Valid() && |node.ib| == 3 && |node.db| == DIRECT && 0 < n
    reads v, node
  {
    var l, f, lo, hi := v.Lay(), NodeFile(v, node), BlockAt(v, offset), BlockAt(v, offset + n - 1) + 1;
    var size := if offset + n > node.size then offset + n else node.size;
    v.Affords(NeedBlocks(l, f, node.size, size, lo, hi), NeedFrags(l, f, node.size, size, lo, hi))
  }

  /** The lengths of the runs that it asks for. */
  ghost function StoreLengths(v: Volume, node: Node, offset: nat, n: nat): set<nat>
    requires v.Valid() && |node.ib| == 3 && |node.db| == DIRECT && 0 < n
    reads v, node
  {
    var size := if offset + n > node.size then offset + n else node.size;
    NeedLengths(v.Lay(), NodeFile(v, node), node.size, size, BlockAt(v, offset), BlockAt(v, offset + n - 1) + 1)
  }

  /** The file grows when the written bytes lie past its end. */
  method MakeRoom(v: Volume, node: Node, offset: nat, n: nat, preferred: nat) returns (r: Option<Errno>)
    requires AtRest(v, node) && |node.db| == DIRECT && 0 < n && offset + n <= MAX_SIZE
    modifies v, node
    ensures v.Valid()
    ensures r.Some? ==> r == Some(Efbig) || v.Refusal(r.value, old(StoreLengths(v, node, offset, n)))
    ensures 1024 <= v.entries ==> r != Some(Efbig)
    ensures Addressable(v.Lay(), offset + n) && old(CanStore(v, node, offset, n)) ==> r.None?
    ensures r.None? ==> AtRest(v, node) && |node.db| == DIRECT && offset + n <= node.size
    ensures r.None? ==> WriteLengths(v, node, BlockAt(v, offset), BlockAt(v, offset + n - 1) + 1) <= old(StoreLengths(v, node, offset, n))
    ensures r.None? && old(CanStore(v, node, offset, n)) ==>
      CanWrite(v, node, BlockAt(v, offset), BlockAt(v, offset + n - 1) + 1)
    ensures r.None? ==>
      && FileBytes(v, node) == (if offset + n > old(node.size) then Resized(old(FileBytes(v, node)), offset + n) else old(FileBytes(v, node)))
      && Step(v.fsize, old(Img(v)), Img(v), old(OwnedBy(v, node)), OwnedBy(v, node))
  {
    hide FileHeld, FileOk, Step, NodeHeld, Bytes, CountsValid, IsFree, Load, Resized, TailZeroed, Block, NeedBlocks,
      NeedFrags, NeedLengths, LengthsIn,
      FilledFile, Addressable, Zeros;
    ghost var f, s, size := NodeFile(v, node), node.size, offset + n;
    ghost var lo, hi := BlockAt(v, offset), BlockAt(v, size - 1) + 1;
    InOrder(v.Lay(), offset, size - 1);
    StepNowhere(v.fsize, Img(v), OwnedBy(v, node));
    if offset + n <= node.size {
      NeedLengthsHave(v.Lay(), f, s, s, lo, hi);
      return None;
    }
    NeedLast(v.Lay(), f, s, size, lo, hi);
    LengthsWider(v.Lay(), f, s, size, lo, hi);
    r := Resize(v, node, offset + n, preferred);
    if r.Some? {
      if r != Some(Efbig) {
        v.RefusalMore(r.value, NeedLengths(v.Lay(), f, s, size, hi - 1, hi), NeedLengths(v.Lay(), f, s, size, lo, hi));
      }
    } else {
      LengthsGrown(v.Lay(), f, s, NodeFile(v, node), size, lo, hi);
      NeedGrown(v.Lay(), f, s, NodeFile(v, node), size, lo, hi);
    }
  }

  /** `nextufs__file_write`. */
  method Write(v: Volume, node: Node, data: seq<Byte>, offset: nat, preferred: nat) returns (r: Option<Errno>)
    requires AtRest(v, node)
    modifies v, node
    ensures v.Valid()
    ensures |data| > 0 && offset + |data| > MAX_SIZE ==> r == Some(Efbig) && unchanged(v) && unchanged(node)
    ensures |data| == 0 ==> r.None?
    ensures r.Some? ==> r == Some(Efbig) || (0 < |data| && v.Refusal(r.value, old(StoreLengths(v, node, offset, |data|))))
    ensures 1024 <= v.entries ==> (r == Some(Efbig) <==> |data| > 0 && offset + |data| > MAX_SIZE)
    ensures |data| > 0 && offset + |data| <= MAX_SIZE && Addressable(v.Lay(), offset + |data|) && old(CanStore(v, node, offset, |data|)) ==>
      r.None?
    ensures r.None? ==>
      && AtRest(v, node)
      && FileBytes(v, node) == Written(old(FileBytes(v, node)), offset, data)
      && Step(v.fsize, old(Img(v)), Img(v), old(OwnedBy(v, node)), OwnedBy(v, node))
  {
    hide FileHeld, FileOk, Step, NodeHeld, Bytes, CountsValid, IsFree, Load, Put, TailZeroed, Block, NeedBlocks, NeedFrags,
      FilledFile,
      Addressable, CanStore, CanWrite, StoreLengths, WriteLengths;
    ghost var m, own := Img(v), OwnedBy(v, node);
    RestShape(v, node);
    if |data| == 0 {
      StepNowhere(v.fsize, m, own);
      return None;
    }
    if offset > 0xFFFF_FFFF_FFFF_FFFF - |data| || offset + |data| > MAX_SIZE {
      return Some(Efbig);
    }
    r := MakeRoom(v, node, offset, |data|, preferred);
    if r.Some? {
      return;
    }
    ghost var m1, own1 := Img(v), OwnedBy(v, node);
    ghost var lengths := WriteLengths(v, node, BlockAt(v, offset), BlockAt(v, offset + |data| - 1) + 1);
    r := WritePieces(v, node, data, offset, preferred);
    if r.Some? {
      v.RefusalMore(r.value, lengths, old(StoreLengths(v, node, offset, |data|)));
    } else {
      StepTwice(v.fsize, m, m1, Img(v), own, own1, OwnedBy(v, node));
    }
  }

  // ----- reading -----

  lemma ReadFits(l: Layout, m: Image, f: File, size: nat, b: nat, within: nat, n: nat)
    requires ValidLayout(l) && Good(l, m, f, Lens(l, size)) && NothingPast(l, f, size) && Block(l.entries, f, b) != 0
    requires 0 < n && within + n <= BlockBytes(l) && Times(BlockBytes(l), b) + within + n <= size
    ensures Times(l.fs, Block(l.entries, f, b)) + within + n <= |m.d|
  {
    ChunkFits(l, m, f, size, b, within, n);
  }

  /** The bytes of one block, as the reader copies them. */
  lemma ReadChunk(l: Layout, d: seq<Byte>, f: File, size: nat, b: nat, within: nat, n: nat)
    requires ValidLayout(l) && |f.db| == DIRECT && |f.trees| == 3 && within + n <= BlockBytes(l) && Times(BlockBytes(l), b) + within + n <= size
    requires var x := Block(l.entries, f, b); x != 0 ==> Times(l.fs, x) + within + n <= |d|
    ensures var x, pos := Block(l.entries, f, b), Times(BlockBytes(l), b) + within;
      Content(l, d, f, size)[pos..pos + n] == if x == 0 then Zeros(n) else d[Times(l.fs, x) + within..Times(l.fs, x) + within + n]
  {
    hide Block, Times, Quot;
    var x, pos := Block(l.entries, f, b), Times(BlockBytes(l), b) + within;
    forall p: nat | pos <= p < pos + n
      ensures ByteAt(l, d, f, p) == if x == 0 then 0 else d[Times(l.fs, x) + within + (p - pos)]
    {
      QuotUnique(BlockBytes(l), b, within + (p - pos));
    }
  }

  /** One turn of the read loop: the bytes of one block. The lookup cannot fail on a file at rest. */
  method ReadPiece(v: Volume, node: Node, logical: nat, within: nat, n: nat) returns (r: Result<seq<Byte>>)
    requires AtRest(v, node) && 0 < n && within + n <= BlockBytes(v.Lay())
    requires Times(BlockBytes(v.Lay()), logical) + within + n <= node.size
    ensures r == Ok(FileBytes(v, node)[Times(BlockBytes(v.Lay()), logical) + within..Times(BlockBytes(v.Lay()), logical) + within + n])
  {
    hide Block, FileHeld, Sound, Held, Conserved, Exclusive, FileFrags, Extent, SameFrag, Load, CountsValid, IsFree, Content,
      Route, Base, Times, Quot, Zeros;
    ReadResolved(v, node, logical, within, n);
    var found := ReadBlock(v.Lay(), v.data, node.db, node.ib, logical);
    var x := found.value;
    ReadChunk(v.Lay(), v.data, NodeFile(v, node), node.size, logical, within, n);
    if x == 0 {
      return Ok(Zeros(n));
    }
    var p := Mul(v.fsize, x);
    if p + within + n > |v.data| {
      return Err(Eio);
    }
    return Ok(v.data[p + within..p + within + n]);
  }

  /** `nextufs_inode_read_data`. On a file at rest it cannot fail. */
  method Read(v: Volume, node: Node, start: nat, count: nat) returns (r: Result<seq<Byte>>)
    requires AtRest(v, node)
    ensures r.Ok?
    ensures var size := node.size;
      r.value == if start >= size then [] else FileBytes(v, node)[start..if count > size - start then size else start + count]
  {
    hide Block, FileOk, Load, CountsValid, IsFree, Content, Bytes, Times, Quot, FileBytes, AtRest;
    if start >= node.size {
      return Ok([]);
    }
    RestValid(v, node);
    var remaining: nat := if node.size - start > count then count else node.size - start;
    var buf: seq<Byte>, bs := [], 4 * v.entries;
    var logical: nat, within: nat := DivMod(bs, start);
    ghost var end, bytes := start + remaining, FileBytes(v, node);
    while remaining > 0
      invariant start + |buf| + remaining == end <= node.size
      invariant buf == bytes[start..start + |buf|]
      invariant within < bs && (remaining > 0 ==> Times(bs, logical) + within == start + |buf|)
    {
      var n := if bs - within > remaining then remaining else bs - within;
      ghost var pos := start + |buf|;
      var piece := ReadPiece(v, node, logical, within, n);
      SliceOn(bytes, start, pos, n);
      buf := buf + piece.value;
      remaining := remaining - n;
      NextBlock(bs, logical);
      logical, within := logical + 1, 0;
    }
    return Ok(buf);
  }

  lemma RestValid(v: Volume, node: Node)
    requires AtRest(v, node)
    ensures v.Valid() && ValidLayout(v.Lay())
  {
  }

  lemma NextBlock(bs: nat, b: nat)
    ensures Times(bs, b + 1) == Times(bs, b) + bs
  {
  }

  lemma SliceOn(s: seq<Byte>, start: nat, pos: nat, n: nat)
    requires start <= pos && pos + n <= |s|
    ensures s[start..pos] + s[pos..pos + n] == s[start..pos + n]
  {
  }

  lemma ReadResolved(v: Volume, node: Node, b: nat, within: nat, n: nat)
    requires AtRest(v, node) && 0 < n && within + n <= BlockBytes(v.Lay()) && Times(BlockBytes(v.Lay()), b) + within + n <= node.size
    ensures var x := Block(v.entries, NodeFile(v, node), b);
      && ReadBlock(v.Lay(), v.data, node.db, node.ib, b) == Ok(x)
      && (x != 0 ==> Times(v.fsize, x) + within + n <= |v.data|)
  {
    hide Block, FileHeld, Sound, Held, Conserved, Exclusive, FileFrags, Extent, SameFrag, Load, CountsValid, IsFree, Content,
      Route, Base, Times, Quot, ResolveTree, ReadTree;
    var l, f := v.Lay(), NodeFile(v, node);
    TailPlaced(l, f, node.size, b);
    ResolveExact(l, v.data, node.db, node.ib, Lens(l, node.size), b);
    ResolversAgree(l, v.data, node.db, node.ib, b);
    if Block(l.entries, f, b) != 0 {
      ReadFits(l, Img(v), f, node.size, b, within, n);
    }
  }

  // ----- every other file -----

  /** Another file of the same volume, which shares no fragment with the owner of `own`. */
  ghost predicate Beside(l: Layout, m: Image, db: seq<nat>, ib: seq<nat>, lens: seq<nat>, own: multiset<nat>)
    requires ValidLayout(l)
  {
    && OnDisk(l, m.d) && |ib| == 3 && Good(l, m, FileOf(l, m.d, db, ib), lens)
    && Exclusive(m.free, own + FileHeld(l.g.frag, FileOf(l, m.d, db, ib), lens, true))
  }

  /** Whatever one file's operation does, every other file keeps its pointers, its bytes and its
      fragments, and the two files still share nothing. */
  lemma OtherFileKept(l: Layout, m: Image, m': Image, own: multiset<nat>, own': multiset<nat>, db: seq<nat>, ib: seq<nat>, size: nat)
    requires ValidLayout(l) && Beside(l, m, db, ib, Lens(l, size), own) && NothingPast(l, FileOf(l, m.d, db, ib), size)
    requires Step(l.fs, m, m', own, own')
    ensures Beside(l, m', db, ib, Lens(l, size), own')
    ensures FileOf(l, m'.d, db, ib) == FileOf(l, m.d, db, ib)
    ensures Content(l, m'.d, FileOf(l, m.d, db, ib), size) == Content(l, m.d, FileOf(l, m.d, db, ib), size)
  {
    hide FileHeld, Sound, Load, SameFrag, Exclusive, Conserved, Block, ByteAt, Lens, Untouched;
    var f, lens := FileOf(l, m.d, db, ib), Lens(l, size);
    var held := FileHeld(l.g.frag, f, lens, true);
    OtherPointers(l, m, m', own, own', db, ib, lens);
    OtherLedger(m.free, own, m'.free, own', held);
    forall p | 0 <= p < size ensures ByteAt(l, m'.d, f, p) == ByteAt(l, m.d, f, p) {
      OtherByte(l, m, m', own, own', f, size, p);
    }
  }

  lemma OtherSame(m: Image, m': Image, fs: nat, own: multiset<nat>, own': multiset<nat>, held: multiset<nat>, y: nat)
    requires Exclusive(m.free, own + held) && Step(fs, m, m', own, own') && held[y] > 0
    ensures SameFrag(fs, m.d, m'.d, y)
  {
    ExclusiveAt(m.free, own + held, y);
    assert Holders(m.free, own, y) == 0;
  }

  lemma OtherPointers(l: Layout, m: Image, m': Image, own: multiset<nat>, own': multiset<nat>, db: seq<nat>, ib: seq<nat>, lens: seq<nat>)
    requires ValidLayout(l) && Beside(l, m, db, ib, lens, own) && Step(l.fs, m, m', own, own')
    ensures OnDisk(l, m'.d) && FileOf(l, m'.d, db, ib) == FileOf(l, m.d, db, ib)
  {
    hide FileHeld, Sound, Load, SameFrag, Exclusive, Conserved, Block, Step, Owned;
    var f := FileOf(l, m.d, db, ib);
    StepLength(l.fs, m, m', own, own');
    forall s | 0 <= s < 3 ensures Load(l, m'.d, ib[s], s + 1) == f.trees[s] {
      forall y | Owned(l.g.frag, f.trees[s], false)[y] > 0 ensures SameFrag(l.fs, m.d, m'.d, y) {
        IndexInFile(l, f, lens, s, y);
        BlocksDistinct(l, f, lens, 0, 1, y);
        OtherSame(m, m', l.fs, own, own', FileHeld(l.g.frag, f, lens, true), y);
      }
      LoadFrame(l, m.d, m'.d, ib[s], s + 1);
    }
    assert FileOf(l, m'.d, db, ib).trees == f.trees;
  }

  lemma StepLength(fs: nat, m: Image, m': Image, own: multiset<nat>, own': multiset<nat>)
    requires Step(fs, m, m', own, own')
    ensures |m'.d| == |m.d|
  {
  }

  lemma OtherLedger(free: iset<nat>, own: multiset<nat>, free': iset<nat>, own': multiset<nat>, held: multiset<nat>)
    requires Exclusive(free, own + held) && Conserved(free, own, free', own')
    ensures Exclusive(free', own' + held) && Exclusive(free', held)
  {
    forall y: nat ensures Holders(free', own' + held, y) <= 1 && Holders(free', held, y) <= 1 {
      assert Holders(free, own + held, y) <= 1;
      assert Holders(free', own', y) == Holders(free, own, y);
    }
  }

  lemma OtherByte(l: Layout, m: Image, m': Image, own: multiset<nat>, own': multiset<nat>, f: File, size: nat, p: nat)
    requires ValidLayout(l) && Good(l, m, f, Lens(l, size)) && p < size && Step(l.fs, m, m', own, own')
    requires Exclusive(m.free, own + FileHeld(l.g.frag, f, Lens(l, size), true))
    ensures ByteAt(l, m'.d, f, p) == ByteAt(l, m.d, f, p)
  {
    hide FileHeld, Sound, SameFrag, Exclusive, Conserved, Block, Lens, RunLen, Held, Step, Times, Quot;
    var b := Quot(BlockBytes(l), p);
    var x, n := Block(l.entries, f, b), RunLen(l.g.frag, Lens(l, size), b);
    StepLength(l.fs, m, m', own, own');
    RunByte(l, size, p);
    if x != 0 {
      forall y | x <= y < x + n ensures SameFrag(l.fs, m.d, m'.d, y) {
        BlockInFile(l, f, Lens(l, size), b, y);
        OtherSame(m, m', l.fs, own, own', FileHeld(l.g.frag, f, Lens(l, size), true), y);
      }
      RunSame(l.fs, m.d, m'.d, x, n);
    }
  }

  lemma BlockInFile(l: Layout, f: File, lens: seq<nat>, b: nat, y: nat)
    requires ValidLayout(l) && Shaped(l, f, lens) && Block(l.entries, f, b) != 0
    requires Block(l.entries, f, b) <= y < Block(l.entries, f, b) + RunLen(l.g.frag, lens, b)
    ensures FileHeld(l.g.frag, f, lens, true)[y] > 0
  {
    hide FileHeld, Block, Sound;
    BlocksDistinct(l, f, lens, b, b + 1, y);
  }
}
