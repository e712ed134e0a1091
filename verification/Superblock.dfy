/** Superblock validation at open, and where it puts the inodes. All fields are unsigned 32-bit numbers. */
module Superblock {
  import opened GroupSpec
  import opened Scale
  import opened Volume

  const INODE_SIZE := 128
  const CG_FREE_OFF := 984
  const WORD := 0x1_0000_0000
  const INT32_MAX := 0x7fff_ffff
  const FS_MAGIC := 0x011954

  datatype Super = Super(
    magic: nat, blockSize: nat, fragSize: nat, fragsPerBlock: nat,
    blockShift: nat, fragShiftCalc: nat, fragShift: nat, csumShift: nat,
    blockMask: nat, fragMask: nat, csumMask: nat,
    sectorsPerFrag: nat, sectorsPerTrack: nat, sectorsPerCyl: nat, fsbtodb: nat,
    cpg: nat, ncyl: nat, cgCount: nat, fragsPerGroup: nat, fragCount: nat, dataFragCount: nat,
    inodesPerGroup: nat, inodesPerBlock: nat, nindir: nat,
    sbOff: nat, cgOff: nat, inoOff: nat, dataOff: nat, cgDelta: nat, cgCycMask: nat,
    cgSize: nat, superSize: nat, csumAddr: nat, csumSize: nat)

  function Pow2(k: nat): (p: nat)
    ensures 0 < p
  {
    if k == 0 then 1 else 2 * Pow2(k - 1)
  }

  /** Bitwise and. */
  function And(x: nat, m: nat): (r: nat)
    ensures r <= m && r <= x
  {
    if x == 0 || m == 0 then 0 else 2 * And(x / 2, m / 2) + (x % 2) * (m % 2)
  }

  /** `~x` on 32 bits. */
  function Complement(x: nat): nat {
    if x < WORD then WORD - 1 - x else 0
  }

  /** `nextufs__cgstart`: groups are staggered by a multiple of `cgDelta`. */
  function CgStart(s: Super, cg: nat): nat {
    s.fragsPerGroup * cg + s.cgDelta * And(cg, Complement(s.cgCycMask))
  }

  // ----- `nextufs_image_validate` -----

  predicate SizesOk(s: Super) {
    && s.magic == FS_MAGIC
    && s.blockShift < 32 && s.fragShiftCalc < 32 && s.csumShift < 32
    && Pow2(s.blockShift) == s.blockSize && Pow2(s.fragShiftCalc) == s.fragSize
    && s.blockMask + s.blockSize == WORD && s.fragMask + s.fragSize == WORD
    && Pow2(s.csumShift) == s.blockSize / 16 && s.csumMask + s.blockSize / 16 == WORD
    && 4096 <= s.blockSize <= 8192 && 1024 <= s.fragSize <= s.blockSize
    && s.fragsPerBlock == s.blockSize / s.fragSize && s.fragsPerBlock <= 8
    && s.fragShift <= 3 && Pow2(s.fragShift) == s.fragsPerBlock
    && s.inodesPerBlock == s.blockSize / INODE_SIZE && s.nindir == s.blockSize / 4
  }

  predicate CylindersOk(s: Super) {
    && 0 < s.sectorsPerFrag <= 16 && (s.sectorsPerFrag == s.fragSize / 1024 || s.sectorsPerFrag == s.fragSize / 2048)
    && s.fsbtodb <= 4 && Pow2(s.fsbtodb) == s.sectorsPerFrag
    && 0 < s.cpg <= 32 && 0 < s.sectorsPerCyl && 0 < s.sectorsPerTrack
    && s.cpg * s.sectorsPerCyl == s.fragsPerGroup * s.sectorsPerFrag
    && 0 < s.cgCount && (s.cgCount - 1) * s.cpg < s.ncyl <= s.cgCount * s.cpg
    && s.ncyl * s.sectorsPerCyl <= INT32_MAX
  }

  predicate GroupsOk(s: Super) {
    && 0 < s.fragsPerGroup && 0 < s.fragCount && s.dataFragCount <= s.fragCount
    && s.cgCount == (s.fragCount + s.fragsPerGroup - 1) / s.fragsPerGroup
    && s.fragCount * (s.fragSize / 1024) <= INT32_MAX
    && 0 < s.inodesPerGroup <= 2048 && s.inodesPerBlock > 0 && s.inodesPerGroup % s.inodesPerBlock == 0
    && s.cgCount * s.inodesPerGroup <= INT32_MAX
    && CG_FREE_OFF <= s.cgSize <= s.blockSize && CG_FREE_OFF + (s.fragsPerGroup + 7) / 8 <= s.cgSize
    && 0x560 <= s.superSize <= 8192
    && s.cgCount * 16 <= s.csumSize <= 32 * s.blockSize
  }

  predicate OffsetsOk(s: Super)
    requires 0 < s.fragSize
  {
    && s.sbOff <= s.cgOff < s.inoOff < s.dataOff
    && s.inoOff + (s.inodesPerGroup * INODE_SIZE + s.fragSize - 1) / s.fragSize <= s.dataOff
    && s.cgDelta * Complement(s.cgCycMask) + s.dataOff <= s.fragsPerGroup
  }

  predicate SliceOk(s: Super, base: int, size: int)
    requires 0 < s.cgCount
  {
    var bytes := s.fragCount * s.fragSize;
    && 0 <= base && 0 <= size && bytes <= size
    && CgStart(s, s.cgCount - 1) + s.dataOff <= s.fragCount
    && s.csumAddr * s.fragSize + s.csumSize <= bytes
  }

  /** The superblock is accepted for a slice of `size` bytes at `base`. */
  predicate Accepted(s: Super, base: int, size: int) {
    SizesOk(s) && CylindersOk(s) && GroupsOk(s) && OffsetsOk(s) && SliceOk(s, base, size)
  }

  /** Slot `r` of block `q` of a group's inode area. */
  function SlotAt(s: Super, base: int, cg: nat, q: nat, r: nat): int {
    base + (CgStart(s, cg) + s.inoOff + q * Pow2(s.fragShift)) * s.fragSize + r * INODE_SIZE
  }

  /** `nextufs__inode_offset` */
  function InodeOffset(s: Super, base: int, ino: nat): int
    requires 0 < s.inodesPerGroup && 0 < s.inodesPerBlock
  {
    var k := IndexOf(s, ino);
    SlotAt(s, base, GroupOf(s, ino), BlockIn(s, k), RowIn(s, k))
  }

  /** The block of an inode within its group, and its place there. */
  function BlockIn(s: Super, k: nat): nat
    requires 0 < s.inodesPerBlock
  {
    k / s.inodesPerBlock
  }

  function RowIn(s: Super, k: nat): nat
    requires 0 < s.inodesPerBlock
  {
    k % s.inodesPerBlock
  }

  /** The group of an inode number, and its index there. */
  function GroupOf(s: Super, ino: nat): nat
    requires 0 < s.inodesPerGroup
  {
    ino / s.inodesPerGroup
  }

  function IndexOf(s: Super, ino: nat): nat
    requires 0 < s.inodesPerGroup
  {
    ino % s.inodesPerGroup
  }

  // ----- arithmetic -----

  lemma {:induction false} Pow2Grows(j: nat, k: nat)
    requires j < k
    ensures 2 * Pow2(j) <= Pow2(k)
  {
    if j + 1 < k {
      Pow2Grows(j, k - 1);
    }
  }

  lemma {:induction false} SmallPowers(k: nat)
    ensures 1024 <= Pow2(k) <= 8192 ==> Pow2(k) in {1024, 2048, 4096, 8192}
  {
    assert Pow2(5) == 32 && Pow2(9) == 16 * Pow2(5) && Pow2(10) == 32 * Pow2(5);
    assert Pow2(13) == 8 * Pow2(10);
    if k < 10 {
      Pow2Grows(k, 10);
    } else if k > 13 {
      Pow2Grows(13, k);
    }
  }

  /** Blocks are whole fragments and whole inodes. */
  lemma {:induction false} BlockParts(s: Super)
    requires SizesOk(s)
    ensures s.fragsPerBlock * s.fragSize == s.blockSize && s.inodesPerBlock * INODE_SIZE == s.blockSize
    ensures s.nindir * 4 == s.blockSize && s.fragsPerBlock in {1, 2, 4, 8} && s.inodesPerBlock > 0
  {
    SmallPowers(s.blockShift);
    SmallPowers(s.fragShiftCalc);
  }

  lemma {:induction false} LargeBlocks(s: Super)
    requires SizesOk(s)
    ensures 1024 <= s.nindir
  {
  }

  lemma {:induction false} MulOrder(a: nat, b: nat, m: nat)
    requires a <= b
    ensures a * m <= b * m
  {
  }

  lemma {:induction false} MulAdd(a: int, b: int, m: int)
    ensures (a + b) * m == a * m + b * m
  {
  }

  lemma {:induction false} MulAssoc(a: int, b: int, c: int)
    ensures (a * b) * c == a * (b * c)
  {
  }

  /** `q` blocks hold as many bytes as their fragments and as their inodes. */
  lemma {:induction false} Regroup(start: nat, q: nat, frags: nat, fs: nat, inodes: nat)
    requires frags * fs == inodes * INODE_SIZE
    ensures (start + q * frags) * fs == start * fs + (q * inodes) * INODE_SIZE
  {
    MulAdd(start, q * frags, fs);
    MulAssoc(q, frags, fs);
    MulAssoc(q, inodes, INODE_SIZE);
  }

  lemma {:induction false} SlotLinear(s: Super, base: int, cg: nat, q: nat, r: nat)
    requires SizesOk(s)
    ensures SlotAt(s, base, cg, q, r) == AreaStart(s, base, cg) + (q * s.inodesPerBlock + r) * INODE_SIZE
  {
    BlockParts(s);
    hide CgStart, SizesOk;
    Regroup(CgStart(s, cg) + s.inoOff, q, s.fragsPerBlock, s.fragSize, s.inodesPerBlock);
  }

  lemma {:induction false} SlotOf(s: Super, base: int, cg: nat, k: nat)
    requires SizesOk(s) && 0 < s.inodesPerBlock
    ensures SlotAt(s, base, cg, BlockIn(s, k), RowIn(s, k)) == AreaStart(s, base, cg) + k * INODE_SIZE
  {
    hide SlotAt, AreaStart, SizesOk;
    SlotLinear(s, base, cg, BlockIn(s, k), RowIn(s, k));
    Divided(k, s.inodesPerBlock);
  }

  /** Inode slots follow each other from the group's first inode fragment on. */
  lemma {:induction false} OffsetLinear(s: Super, base: int, ino: nat)
    requires SizesOk(s) && 0 < s.inodesPerGroup
    ensures s.inodesPerBlock > 0
    ensures InodeOffset(s, base, ino) == AreaStart(s, base, GroupOf(s, ino)) + IndexOf(s, ino) * INODE_SIZE
  {
    SizesPositive(s);
    hide SlotAt, AreaStart, SizesOk, GroupOf, IndexOf;
    SlotOf(s, base, GroupOf(s, ino), IndexOf(s, ino));
  }

  lemma {:induction false} Divided(k: nat, m: nat)
    requires 0 < m
    ensures k == (k / m) * m + k % m
  {
  }

  // ----- the stagger of the groups -----

  function Bit(x: nat, k: nat): nat {
    if k == 0 then x % 2 else Bit(x / 2, k - 1)
  }

  lemma {:induction false} NoBits(k: nat)
    ensures Bit(0, k) == 0
  {
    if k > 0 {
      NoBits(k - 1);
    }
  }

  lemma {:induction false} AndBit(x: nat, m: nat, k: nat)
    ensures Bit(And(x, m), k) == Bit(x, k) * Bit(m, k)
  {
    if x == 0 || m == 0 {
      NoBits(k);
    } else if k > 0 {
      assert And(x, m) / 2 == And(x / 2, m / 2);
      AndBit(x / 2, m / 2, k - 1);
    }
  }

  lemma {:induction false} ModDouble(x: nat, p: nat)
    requires 0 < p
    ensures x % (2 * p) == 2 * ((x / 2) % p) + x % 2
  {
    var h := x / 2;
    Divided(h, p);
    MulAssoc(2, p, h / p);
    ModUnique(x, 2 * p, h / p, 2 * (h % p) + x % 2);
  }

  lemma {:induction false} ModUnique(x: nat, m: nat, q: nat, r: nat)
    requires r < m && x == q * m + r
    ensures x % m == r && x / m == q
  {
    Divided(x, m);
    if x / m < q {
      MulOrder(x / m + 1, q, m);
      MulAdd(x / m, 1, m);
    } else if q < x / m {
      MulOrder(q + 1, x / m, m);
      MulAdd(q, 1, m);
    }
  }

  lemma {:induction false} AndOdd(x: nat, p: nat)
    requires 0 < p
    ensures And(x, 2 * p - 1) == 2 * And(x / 2, p - 1) + x % 2
  {
    assert (2 * p - 1) / 2 == p - 1 && (2 * p - 1) % 2 == 1;
  }

  lemma {:induction false} AndDouble(x: nat, p: nat)
    requires 0 < p && And(x / 2, p - 1) == (x / 2) % p
    ensures And(x, 2 * p - 1) == x % (2 * p)
  {
    hide And;
    AndOdd(x, p);
    ModDouble(x, p);
  }

  lemma {:induction false} AndMask(x: nat, j: nat)
    ensures And(x, Pow2(j) - 1) == x % Pow2(j)
  {
    if j > 0 {
      AndMask(x / 2, j - 1);
      AndDouble(x, Pow2(j - 1));
    }
  }

  /** The usual cycle mask clears the low `j` bits: the metadata of `2^j` successive groups is shifted by
      `cgDelta` more each, and then starts over. */
  lemma {:induction false} CgStartStagger(s: Super, cg: nat, j: nat)
    requires s.cgCycMask + Pow2(j) == WORD
    ensures CgStart(s, cg) == s.fragsPerGroup * cg + s.cgDelta * (cg % Pow2(j))
  {
    AndMask(cg, j);
    assert Complement(s.cgCycMask) == Pow2(j) - 1;
  }

  /** Inode `r` of the block `q` of the inode area of group `cg`, as a distance from the slice. */
  lemma {:induction false} InodeSlotPlace(s: Super, base: int, ino: nat, cg: nat, q: nat, r: nat)
    requires 0 < s.inodesPerGroup && 0 < s.inodesPerBlock && SizesOk(s)
    requires InodeIs(s, ino, cg, q, r)
    ensures InodeOffset(s, base, ino)
      == base + (CgStart(s, cg) + s.inoOff) * s.fragSize + q * s.blockSize + r * INODE_SIZE
  {
    hide CgStart, SizesOk, SlotAt, AreaStart, InodeIs, GroupOf, IndexOf, BlockIn, RowIn;
    BlockParts(s);
    InodeSplits(s, ino, cg, q, r);
    SlotLinear(s, base, cg, q, r);
    AreaIs(s, base, cg);
    Spread(q, s.inodesPerBlock, r);
  }

  /** Inode `ino` is number `r` in the block `q` of the inode area of group `cg`. */
  predicate InodeIs(s: Super, ino: nat, cg: nat, q: nat, r: nat) {
    && r < s.inodesPerBlock && q * s.inodesPerBlock + r < s.inodesPerGroup
    && ino == cg * s.inodesPerGroup + (q * s.inodesPerBlock + r)
  }

  lemma {:induction false} InodeSplits(s: Super, ino: nat, cg: nat, q: nat, r: nat)
    requires 0 < s.inodesPerGroup && 0 < s.inodesPerBlock && InodeIs(s, ino, cg, q, r)
    ensures GroupOf(s, ino) == cg && BlockIn(s, IndexOf(s, ino)) == q && RowIn(s, IndexOf(s, ino)) == r
  {
    var k := q * s.inodesPerBlock + r;
    ModUnique(ino, s.inodesPerGroup, cg, k);
    ModUnique(k, s.inodesPerBlock, q, r);
  }

  lemma {:induction false} Spread(q: int, m: int, r: int)
    ensures (q * m + r) * INODE_SIZE == q * (m * INODE_SIZE) + r * INODE_SIZE
  {
    MulAdd(q * m, r, INODE_SIZE);
    MulAssoc(q, m, INODE_SIZE);
  }

  lemma {:induction false} AreaIs(s: Super, base: int, cg: nat)
    ensures AreaStart(s, base, cg) == base + (CgStart(s, cg) + s.inoOff) * s.fragSize
  {
  }

  // ----- the inode area of a group -----

  /** The first byte of the group's inode area, and the one after it. */
  function AreaStart(s: Super, base: int, cg: nat): int {
    base + (CgStart(s, cg) + s.inoOff) * s.fragSize
  }

  function AreaEnd(s: Super, base: int, cg: nat): int {
    base + (CgStart(s, cg) + s.dataOff) * s.fragSize
  }

  lemma {:induction false} AreaHolds(s: Super, base: int, cg: nat)
    requires 0 < s.fragSize && OffsetsOk(s)
    ensures AreaStart(s, base, cg) + s.inodesPerGroup * INODE_SIZE <= AreaEnd(s, base, cg)
  {
    hide CgStart;
    var need, fs := s.inodesPerGroup * INODE_SIZE, s.fragSize;
    var frags := (need + fs - 1) / fs;
    Divided(need + fs - 1, fs);
    MulOrder(CgStart(s, cg) + s.inoOff + frags, CgStart(s, cg) + s.dataOff, fs);
    MulAdd(CgStart(s, cg) + s.inoOff, frags, fs);
  }

  /** Whatever the stagger, a group's metadata ends before the next group begins. */
  lemma {:induction false} CgStartBounds(s: Super, cg: nat)
    requires 0 < s.fragSize && OffsetsOk(s)
    ensures s.fragsPerGroup * cg <= CgStart(s, cg)
    ensures CgStart(s, cg) + s.dataOff <= s.fragsPerGroup * (cg + 1)
  {
    var m := Complement(s.cgCycMask);
    MulOrder(And(cg, m), m, s.cgDelta);
    assert s.fragsPerGroup * (cg + 1) == s.fragsPerGroup * cg + s.fragsPerGroup;
  }

  lemma {:induction false} GroupsOrdered(s: Super, base: int, c: nat, d: nat)
    requires 0 < s.fragSize && OffsetsOk(s) && c < d
    ensures AreaEnd(s, base, c) <= AreaStart(s, base, d)
  {
    hide CgStart;
    CgStartBounds(s, c);
    CgStartBounds(s, d);
    MulOrder(c + 1, d, s.fragsPerGroup);
    MulOrder(CgStart(s, c) + s.dataOff, CgStart(s, d) + s.inoOff, s.fragSize);
  }

  lemma {:induction false} AreaInSlice(s: Super, base: int, size: int, cg: nat)
    requires Accepted(s, base, size) && cg < s.cgCount
    ensures base <= AreaStart(s, base, cg) && AreaEnd(s, base, cg) <= base + size
  {
    hide CgStart, SizesOk;
    var last := s.cgCount - 1;
    assert 0 < s.fragSize by { SizesPositive(s); }
    if cg < last {
      GroupsOrdered(s, base, cg, last);
      MulOrder(CgStart(s, last) + s.inoOff, CgStart(s, last) + s.dataOff, s.fragSize);
    }
    MulOrder(CgStart(s, last) + s.dataOff, s.fragCount, s.fragSize);
    MulOrder(0, CgStart(s, cg) + s.inoOff, s.fragSize);
  }

  lemma {:induction false} SizesPositive(s: Super)
    requires SizesOk(s)
    ensures 0 < s.fragSize && 0 < s.inodesPerBlock
  {
  }

  /** Every valid inode number has its 128 bytes inside its own group's inode area and inside the slice. */
  lemma {:induction false} InodeSlotInside(s: Super, base: int, size: int, ino: nat)
    requires Accepted(s, base, size) && ino < s.cgCount * s.inodesPerGroup
    ensures s.inodesPerBlock > 0
    ensures var cg, off := GroupOf(s, ino), InodeOffset(s, base, ino);
      && cg < s.cgCount
      && AreaStart(s, base, cg) <= off && off + INODE_SIZE <= AreaEnd(s, base, cg)
      && base <= off && off + INODE_SIZE <= base + size
  {
    SizesPositive(s);
    InodeParts(s, ino);
    hide CgStart, SizesOk, OffsetsOk, AreaEnd, AreaStart, InodeOffset, CylindersOk, SliceOk, GroupOf, IndexOf;
    OffsetLinear(s, base, ino);
    AreaHolds(s, base, GroupOf(s, ino));
    AreaInSlice(s, base, size, GroupOf(s, ino));
  }

  lemma {:induction false} InodeParts(s: Super, ino: nat)
    requires 0 < s.inodesPerGroup && ino < s.cgCount * s.inodesPerGroup
    ensures GroupOf(s, ino) < s.cgCount && IndexOf(s, ino) < s.inodesPerGroup
  {
    var m := s.inodesPerGroup;
    Divided(ino, m);
    MulOrderIf(s.cgCount, ino / m, m);
  }

  lemma {:induction false} MulOrderIf(a: nat, b: nat, m: nat)
    ensures a <= b ==> a * m <= b * m
  {
  }

  /** Inode slots lie in the order of their numbers and never overlap. */
  lemma {:induction false} InodeSlotsDisjoint(s: Super, base: int, size: int, i: nat, j: nat)
    requires Accepted(s, base, size) && i < j < s.cgCount * s.inodesPerGroup
    ensures s.inodesPerBlock > 0 && InodeOffset(s, base, i) + INODE_SIZE <= InodeOffset(s, base, j)
  {
    SizesPositive(s);
    InodeOrder(s, i, j);
    hide CgStart, SizesOk, OffsetsOk, InodeOffset, AreaStart, AreaEnd, CylindersOk, SliceOk, GroupOf, IndexOf;
    InodeSlotInside(s, base, size, i);
    InodeSlotInside(s, base, size, j);
    if GroupOf(s, i) < GroupOf(s, j) {
      GroupsOrdered(s, base, GroupOf(s, i), GroupOf(s, j));
    } else {
      OffsetLinear(s, base, i);
      OffsetLinear(s, base, j);
    }
  }

  lemma {:induction false} InodeOrder(s: Super, i: nat, j: nat)
    requires 0 < s.inodesPerGroup && i < j
    ensures GroupOf(s, i) <= GroupOf(s, j)
    ensures GroupOf(s, i) == GroupOf(s, j) ==> IndexOf(s, i) < IndexOf(s, j)
  {
    var m := s.inodesPerGroup;
    Divided(i, m);
    Divided(j, m);
    MulOrderIf(j / m + 1, i / m, m);
    MulAdd(j / m, 1, m);
  }

  // ----- the volume that an accepted superblock describes -----

  function GroupLength(s: Super, cg: nat): nat {
    if s.fragsPerGroup * (cg + 1) <= s.fragCount then s.fragsPerGroup
    else if s.fragsPerGroup * cg <= s.fragCount then s.fragCount - s.fragsPerGroup * cg
    else 0
  }

  function LayoutOf(s: Super): Layout
    requires 0 < s.sectorsPerCyl && 0 < s.sectorsPerTrack && 0 < s.fragsPerGroup
  {
    Layout(DiskGeometry(s.fragsPerBlock, s.fragsPerGroup, s.sectorsPerFrag, s.sectorsPerCyl, s.sectorsPerTrack),
           seq(s.cgCount, c requires 0 <= c < s.cgCount => GroupLength(s, c)), s.fragSize, s.nindir, s.fragCount)
  }

  /** A block at local fragment `d` lies in cylinder `c` and at rotational position `r` of the disk. */
  ghost predicate DiskPlace(s: Super, d: nat, c: nat, r: nat) {
    Placed(s.sectorsPerFrag, s.sectorsPerCyl, s.sectorsPerTrack, d, c, r)
  }

  /** The allocator and the files are proved on volumes of this kind. */
  lemma {:induction false} AcceptedLayout(s: Super, base: int, size: int)
    requires Accepted(s, base, size)
    ensures ValidLayout(LayoutOf(s)) && |LayoutOf(s).lens| == s.cgCount && 1024 <= LayoutOf(s).entries
    ensures forall d: nat | d < s.fragsPerGroup :: DiskPlace(s, d, LayoutOf(s).g.cyl(d), LayoutOf(s).g.rot(d))
  {
    BlockParts(s);
    LargeBlocks(s);
    hide SizesOk, OffsetsOk, SliceOk;
    var l := LayoutOf(s);
    DiskGeometryValid(s.fragsPerBlock, s.fragsPerGroup, s.sectorsPerFrag, s.sectorsPerCyl, s.sectorsPerTrack, s.cpg);
    TimesIsProduct(s.fragSize, s.fragsPerBlock);
    forall d: nat | d < s.fragsPerGroup ensures DiskPlace(s, d, l.g.cyl(d), l.g.rot(d)) {
      DiskPositions(s.fragsPerBlock, s.fragsPerGroup, s.sectorsPerFrag, s.sectorsPerCyl, s.sectorsPerTrack, d);
    }
    SizesPositive(s);
    CountBelow(s);
    forall c | 0 <= c < |l.lens|
      ensures Times(l.g.fpg, c) + l.lens[c] <= l.fragCount && l.lens[c] <= l.g.fpg
    {
      TimesIsProduct(s.fragsPerGroup, c);
      LengthFits(s, c);
    }
  }

  /** The groups of the layout hold every fragment of the volume. */
  lemma {:induction false} FragmentGrouped(s: Super, base: int, size: int, c: nat, d: nat)
    requires Accepted(s, base, size)
    requires d < s.fragsPerGroup && c * s.fragsPerGroup + d < s.fragCount
    ensures c < s.cgCount && d < LayoutOf(s).lens[c]
  {
    hide SizesOk, CylindersOk, OffsetsOk, SliceOk, GroupLength, CgStart;
    RoundedUp(c, d, s.fragCount, s.fragsPerGroup);
    LengthHolds(s, c, d);
  }

  lemma {:induction false} RoundedUp(c: nat, d: nat, n: nat, m: nat)
    requires c * m + d < n && 0 < m
    ensures c < (n + m - 1) / m
  {
    Divided(n + m - 1, m);
    MulOrderIf((n + m - 1) / m, c, m);
  }

  lemma {:induction false} LengthHolds(s: Super, c: nat, d: nat)
    requires d < s.fragsPerGroup && c * s.fragsPerGroup + d < s.fragCount
    ensures d < GroupLength(s, c)
  {
  }

  /** A group's map fits in its metadata block, so no counter of a consistent group wraps the 16-bit
      and 32-bit fields that store them. */
  lemma {:induction false} CountersStored(s: Super, base: int, size: int, g: Geometry, cg: Group, c: Counter)
    requires Accepted(s, base, size) && g.fpg == s.fragsPerGroup && g.frag == s.fragsPerBlock
    requires ValidGeometry(g) && Consistent(g, cg) && Tracked(g, c)
    ensures 0 <= Field(g, cg, c) < 0x1_0000
  {
    CountersFit(g, c, cg.free);
    MapFits(s);
    hide SizesOk, CylindersOk, GroupsOk, OffsetsOk, SliceOk, Total;
    assert Field(g, cg, c) == Total(g, c, cg.free);
  }

  lemma {:induction false} MapFits(s: Super)
    requires GroupsOk(s) && SizesOk(s)
    ensures s.fragsPerGroup + 8 < 0x1_0000
  {
  }

  lemma {:induction false} CountBelow(s: Super)
    requires SizesOk(s) && GroupsOk(s)
    ensures s.fragCount < WORD
  {
    assert s.fragSize / 1024 >= 1;
    MulOrder(1, s.fragSize / 1024, s.fragCount);
  }

  lemma {:induction false} LengthFits(s: Super, c: nat)
    requires GroupsOk(s) && c < s.cgCount
    ensures s.fragsPerGroup * c + GroupLength(s, c) <= s.fragCount && GroupLength(s, c) <= s.fragsPerGroup
  {
    var m := s.fragsPerGroup;
    var top := s.fragCount + m - 1;
    Divided(top, m);
    MulOrder(c + 1, s.cgCount, m);
    MulAdd(c, 1, m);
  }
}
