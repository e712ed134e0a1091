/** Two directories on which a removal goes wrong. In both, two removals and an insertion leave a free
    record between a live one and the next, in a block after the first. */
module DirExamples {
  import opened Options
  import opened Scale
  import opened DirRecords
  import opened DirRemoval

  // ----- directories from their records -----

  ghost predicate Writable(e: Ent) {
    0 < e.ino < 0x1_0000_0000 && NameOk(e.name) && DirentSize(|e.name|) <= e.reclen <= DIRBLKSIZ && e.reclen % 4 == 0
  }

  /** Records that may follow each other from the start of a block. */
  ghost predicate WellPlaced(rs: seq<Ent>) {
    forall i | 0 <= i < |rs| :: Writable(rs[i]) && Sum(rs[..i]) % DIRBLKSIZ + rs[i].reclen <= DIRBLKSIZ
  }

  function Bytes(rs: seq<Ent>): (b: seq<Byte>)
    requires forall i | 0 <= i < |rs| :: rs[i].ino < 0x1_0000_0000 && |rs[i].name| + 8 <= rs[i].reclen < 0x1_0000
  {
    if rs == [] then [] else
      var e := rs[|rs| - 1];
      Bytes(rs[..|rs| - 1]) + Raw(e.ino, e.reclen, e.name)
  }

  /** Records that were written one after the other read back. */
  lemma {:induction false} BytesRead(rs: seq<Ent>)
    requires WellPlaced(rs)
    ensures |Bytes(rs)| == Sum(rs) && Records(Bytes(rs), 0, |Bytes(rs)|) == Some(rs)
  {
    if rs != [] {
      hide Raw, ReadDirent, Bytes, Sum, Records, WellPlaced;
      var front, e := rs[..|rs| - 1], rs[|rs| - 1];
      FrontPlaced(rs);
      BytesRead(front);
      assert rs == front + [e];
      AppendedRead(Bytes(front), front, e);
      SumSnoc(front, e);
      BytesSnoc(rs);
    }
  }

  lemma {:induction false} BytesSnoc(rs: seq<Ent>)
    requires rs != [] && WellPlaced(rs)
    ensures WellPlaced(rs[..|rs| - 1]) && var e := rs[|rs| - 1];
      Writable(e) && Bytes(rs) == Bytes(rs[..|rs| - 1]) + Raw(e.ino, e.reclen, e.name)
  {
    FrontPlaced(rs);
  }

  lemma {:induction false} FrontPlaced(rs: seq<Ent>)
    requires rs != [] && WellPlaced(rs)
    ensures WellPlaced(rs[..|rs| - 1]) && Writable(rs[|rs| - 1])
    ensures Sum(rs[..|rs| - 1]) % DIRBLKSIZ + rs[|rs| - 1].reclen <= DIRBLKSIZ
  {
    var front := rs[..|rs| - 1];
    forall i | 0 <= i < |front|
      ensures Writable(front[i]) && Sum(front[..i]) % DIRBLKSIZ + front[i].reclen <= DIRBLKSIZ
    {
      assert front[..i] == rs[..i] && front[i] == rs[i];
    }
  }

  lemma {:induction false} AppendedRead(b: seq<Byte>, rs: seq<Ent>, e: Ent)
    requires Records(b, 0, |b|) == Some(rs) && Writable(e) && |b| % DIRBLKSIZ + e.reclen <= DIRBLKSIZ
    ensures var c := b + Raw(e.ino, e.reclen, e.name);
      Records(c, 0, |c|) == Some(rs + [e])
  {
    hide ReadDirent, Raw, Records, DirentSize;
    var s := Raw(e.ino, e.reclen, e.name);
    var c := b + s;
    assert c[0..|b|] == b[0..|b|] && c[|b|..|b| + e.reclen] == s;
    RecordsFrame(b, c, 0, |b|);
    ReadRaw(c, |b|, e.ino, e.reclen, e.name);
    RecordsOne(c, |b|);
    RecordsJoin(c, 0, |b|, |c|);
  }

  // ----- a full first block -----

  function Letters(n: nat, c: Byte): (s: seq<Byte>)
    ensures |s| == n && forall i | 0 <= i < n :: s[i] == c
  {
    seq(n, _ => c)
  }

  /** ".", ".." and four names that leave no room. */
  function FullBlock(): (rs: seq<Ent>)
    ensures |rs| == 6
  {
    [Ent(5, 12, [46]), Ent(2, 12, [46, 46]), Ent(20, 264, Letters(255, 98)), Ent(21, 264, Letters(255, 99)),
     Ent(22, 264, Letters(255, 100)), Ent(23, 208, Letters(196, 101))]
  }

  lemma {:induction false} FullBlockWritable()
    ensures forall i | 0 <= i < 6 :: Writable(FullBlock()[i])
    ensures NoneUsable(FullBlock(), 12)
  {
    assert NameOk(Letters(255, 98)) && NameOk(Letters(255, 99)) && NameOk(Letters(255, 100)) && NameOk(Letters(196, 101));
  }

  lemma {:induction false} FullBlockSums()
    ensures var rs := FullBlock();
      && Sum(rs[..0]) == 0 && Sum(rs[..1]) == 12 && Sum(rs[..2]) == 24 && Sum(rs[..3]) == 288 && Sum(rs[..4]) == 552
      && Sum(rs[..5]) == 816 && Sum(rs) == 1024
  {
    hide Sum;
    var rs := FullBlock();
    SumNothing(rs);
    SumNext(rs, 0);
    SumNext(rs, 1);
    SumNext(rs, 2);
    SumNext(rs, 3);
    SumNext(rs, 4);
    SumNext(rs, 5);
    assert rs[..6] == rs;
  }

  /** Four small records in the block after it. */
  lemma {:induction false} SecondBlock(t: seq<Ent>)
    requires |t| <= 4 && (forall i | 0 <= i < |t| :: Writable(t[i])) && Sum(t) <= DIRBLKSIZ
    ensures WellPlaced(FullBlock() + t) && Sum(FullBlock() + t) == 1024 + Sum(t)
  {
    hide Sum, Writable;
    var pre := FullBlock();
    var rs := pre + t;
    FullBlockWritable();
    FullBlockSums();
    SumJoin(pre, t);
    forall i | 0 <= i < |rs|
      ensures Writable(rs[i]) && Sum(rs[..i]) % DIRBLKSIZ + rs[i].reclen <= DIRBLKSIZ
    {
      if i < 6 {
        assert rs[..i] == pre[..i] && rs[i] == pre[i];
      } else {
        var k := i - 6;
        assert rs[..i] == pre + t[..k] && rs[i] == t[k];
        SumJoin(pre, t[..k]);
        SumBelow(t, k);
      }
    }
  }

  lemma {:induction false} SumBelow(t: seq<Ent>, k: nat)
    requires k < |t|
    ensures Sum(t[..k]) + t[k].reclen <= Sum(t)
  {
    SumSplit(t, k);
  }

  /** A block boundary separates the searches for the last live record. */
  lemma {:induction false} LastLiveShift(pre: seq<Ent>, t: seq<Ent>, k: nat)
    requires Sum(pre) % DIRBLKSIZ == 0 && k <= |t|
    ensures LastLive(pre + t, |pre| + k) == match LastLive(t, k) case None => None case Some(j) => Some(|pre| + j)
    decreases k
  {
    hide Sum;
    var rs := pre + t;
    assert rs[..|pre| + k] == pre + t[..k];
    SumJoin(pre, t[..k]);
    SumNothing(t);
    if k > 0 {
      assert rs[|pre| + k - 1] == t[k - 1];
      LastLiveShift(pre, t, k - 1);
    }
  }

  // ----- the three steps before the removal -----

  lemma {:induction false} FirstTwo(t: seq<Ent>)
    requires |t| >= 3 && (forall i | 0 <= i < |t| :: Writable(t[i])) && Sum(t) <= DIRBLKSIZ && t[0].reclen + t[1].reclen < DIRBLKSIZ
    ensures LastLive(t, 0) == None
    ensures var u := t[0 := Ent(0, t[0].reclen, [])]; LastLive(u, 1) == None
    ensures var v := t[0 := Ent(14, t[0].reclen, [97])][1 := Ent(0, t[1].reclen, [])]; LastLive(v, 2) == Some(0)
  {
    hide Sum;
    var u := t[0 := Ent(0, t[0].reclen, [])];
    assert LastLive(u, 0) == None;
    var v := t[0 := Ent(14, t[0].reclen, [97])][1 := Ent(0, t[1].reclen, [])];
    SumNothing(v);
    SumNext(v, 0);
    SumNext(v, 1);
    assert LastLive(v, 1) == Some(0);
  }

  lemma {:induction false} FreedRecs(pre: seq<Ent>, t: seq<Ent>, k: nat)
    requires Sum(pre) % DIRBLKSIZ == 0 && k < |t| && LastLive(t, k) == None
    ensures LastLive(pre + t, |pre| + k) == None
    ensures RemoveRecs(pre + t, |pre| + k) == pre + t[k := Ent(0, t[k].reclen, [])]
  {
    hide Sum, LastLive;
    LastLiveShift(pre, t, k);
    var rs := pre + t;
    assert rs[..|pre| + k] == pre + t[..k] && rs[|pre| + k + 1..] == t[k + 1..];
    assert t[..k] + ([Ent(0, t[k].reclen, [])] + t[k + 1..]) == t[k := Ent(0, t[k].reclen, [])];
  }

  lemma {:induction false} LiveShift(pre: seq<Ent>, t: seq<Ent>, k: nat, j: nat)
    requires Sum(pre) % DIRBLKSIZ == 0 && k <= |t| && LastLive(t, k) == Some(j)
    ensures LastLive(pre + t, |pre| + k) == Some(|pre| + j)
  {
    LastLiveShift(pre, t, k);
  }

  /** A second block of three or four records, full, the first two of 12 bytes. */
  ghost predicate Second(t: seq<Ent>) {
    && 3 <= |t| <= 4 && (forall i | 0 <= i < |t| :: Writable(t[i])) && Sum(t) == DIRBLKSIZ
    && t[0].reclen == 12 && t[1].reclen == 12
  }

  function Freed(t: seq<Ent>, k: nat): seq<Ent>
    requires k < |t|
  {
    t[k := Ent(0, t[k].reclen, [])]
  }

  function Renamed(t: seq<Ent>): seq<Ent>
    requires t != []
  {
    t[0 := Ent(14, t[0].reclen, [97])]
  }

  lemma {:induction false} BuildFirst(t: seq<Ent>) returns (b0: seq<Byte>)
    requires Second(t)
    ensures b0 == Bytes(FullBlock() + t) && Tiled(b0) && Listing(b0) == FullBlock() + t && |b0| == 2048
  {
    hide Sum, Records, Bytes;
    SecondBlock(t);
    BytesRead(FullBlock() + t);
    b0 := Bytes(FullBlock() + t);
  }

  /** The first record of the second block is removed: it becomes free. */
  lemma {:induction false} FreeAt(b: seq<Byte>, t: seq<Ent>, k: nat)
    requires Tiled(b) && Listing(b) == FullBlock() + t && k < |t| && LastLive(t, k) == None && |b| == 2048
    ensures Adjacent(Listing(b), 6 + k)
    ensures Tiled(RemoveBytes(b, 6 + k)) && Listing(RemoveBytes(b, 6 + k)) == FullBlock() + Freed(t, k)
    ensures Offset(b, 6 + k) == 1024 + Sum(t[..k]) && Offset(b, 6 + k) + 4 <= |b|
    ensures RemoveBytes(b, 6 + k) == Put(b, Offset(b, 6 + k), Write32(0))
  {
    hide Sum, Records, ReadDirent, LastLive, Write32;
    FullBlockSums();
    FreedRecs(FullBlock(), t, k);
    AdjacentBytes(b, 6 + k);
    RecordAt(b, 6 + k);
    assert (FullBlock() + t)[..6 + k] == FullBlock() + t[..k];
    SumJoin(FullBlock(), t[..k]);
  }

  /** The short name goes to the first free record of the second block. */
  lemma {:induction false} InsertAt(b: seq<Byte>, t: seq<Ent>)
    requires Tiled(b) && Listing(b) == FullBlock() + t && t != [] && t[0] == Ent(0, 12, []) && |b| == 2048
    ensures var c := SplitBytes(b, 1024, t[0], [97], 14);
      Tiled(c) && Listing(c) == InsertRecs(Listing(b), [97], 14) == FullBlock() + Renamed(t)
  {
    hide Sum, Records, ReadDirent, SplitBytes;
    FullBlockSums();
    FullBlockWritable();
    RecordAt(b, 6);
    assert (FullBlock() + t)[..6] == FullBlock();
    assert DirentSize(1) == 12;
    InsertedHere(b, 1024, [97], 14);
    InsertAfter(FullBlock(), t, [97], 14);
    assert InsertRecs(t, [97], 14) == [Ent(14, 12, [97])] + t[1..] == Renamed(t);
  }

  /** Two removals and an insertion, each done right, leave a live, a free and then the third record. */
  lemma {:induction false} Prepare(t: seq<Ent>) returns (b0: seq<Byte>, b1: seq<Byte>, b2: seq<Byte>, b3: seq<Byte>)
    requires Second(t)
    ensures Tiled(b0) && Listing(b0) == FullBlock() + t && |b0| == 2048 && Adjacent(Listing(b0), 6) && b1 == RemoveBytes(b0, 6)
    ensures Tiled(b1) && Listing(b1) == FullBlock() + Freed(t, 0) && Adjacent(Listing(b1), 7) && b2 == RemoveBytes(b1, 7)
    ensures Tiled(b2) && |b2| == 2048 && b3 == SplitBytes(b2, 1024, Ent(0, 12, []), [97], 14)
    ensures Tiled(b3) && |b3| == 2048 && Listing(b3) == InsertRecs(Listing(b2), [97], 14) == FullBlock() + Renamed(Freed(Freed(t, 0), 1))
    ensures LastLive(Listing(b3), 8) == Some(6)
    ensures b3[1048..] == b0[1048..] && b0 == Bytes(FullBlock() + t)
  {
    hide Sum, Records, ReadDirent, LastLive, RemoveBytes, SplitBytes, InsertRecs, Bytes, Write32;
    FullBlockSums();
    FirstTwo(t);
    b0 := BuildFirst(t);
    FreeAt(b0, t, 0);
    b1 := RemoveBytes(b0, 6);
    var t1 := Freed(t, 0);
    FreeAt(b1, t1, 1);
    b2 := RemoveBytes(b1, 7);
    var t2 := Freed(t1, 1);
    InsertAt(b2, t2);
    b3 := SplitBytes(b2, 1024, t2[0], [97], 14);
    var t3 := Renamed(t2);
    assert t3 == t[0 := Ent(14, t[0].reclen, [97])][1 := Ent(0, t[1].reclen, [])];
    LiveShift(FullBlock(), t3, 2, 0);
    SumNothing(t);
    SumNothing(t1);
    SumNext(t1, 0);
    KeptBytes(b0, b1, b2, b3, t2[0]);
  }

  lemma {:induction false} KeptBytes(b0: seq<Byte>, b1: seq<Byte>, b2: seq<Byte>, b3: seq<Byte>, e: Ent)
    requires |b0| == |b1| == |b2| == 2048 && e == Ent(0, 12, [])
    requires b1 == Put(b0, 1024, Write32(0)) && b2 == Put(b1, 1036, Write32(0)) && b3 == SplitBytes(b2, 1024, e, [97], 14)
    ensures b3[1048..] == b0[1048..]
  {
    hide Raw, Write32;
    PutOutside(b0, 1024, Write32(0), 1024, 1048);
    PutOutside(b1, 1036, Write32(0), 1024, 1048);
    SplitOutside(b2, 1024, e, [97], 14);
    assert b3[1048..] == b3[1036..][12..] == b2[1036..][12..] == b2[1048..];
  }

  // ----- the two outcomes -----

  function W(): Ent { Ent(13, 12, [119]) }

  /** A removal that reports success and leaves the name: the merged record ends where the removed one
      begins. The directory stays tiled and "w" is still found. */
  lemma {:induction false} RemovedNameIsFound() returns (b0: seq<Byte>, b1: seq<Byte>, b2: seq<Byte>, b3: seq<Byte>)
    ensures Tiled(b0) && |Listing(b0)| == 10 && Adjacent(Listing(b0), 6) && b1 == RemoveBytes(b0, 6)
    ensures Tiled(b1) && |Listing(b1)| == 10 && Adjacent(Listing(b1), 7) && b2 == RemoveBytes(b1, 7)
    ensures Tiled(b2) && Tiled(b3) && Listing(b3) == InsertRecs(Listing(b2), [97], 14)
    ensures |Listing(b3)| == 10 && OnlyEntry(Listing(b3), 8) && Listing(b3)[8] == W()
    ensures var c := RemoveBytes(b3, 8);
      Tiled(c) && Find(Listing(c), W().name) == 13
  {
    hide Sum, Records, ReadDirent, LastLive, RemoveBytes, SplitBytes, InsertRecs, Bytes, Find;
    var t := [Ent(11, 12, [120]), Ent(12, 12, [121]), W(), Ent(16, 988, [122])];
    SumFour(t);
    b0, b1, b2, b3 := Prepare(t);
    var u := Renamed(Freed(Freed(t, 0), 1));
    assert u == [Ent(14, 12, [97]), Ent(0, 12, []), W(), Ent(16, 988, [122])];
    SumFour(u);
    OnlyW(u);
    var rs := FullBlock() + u;
    assert rs[..6] == FullBlock() && rs[..8] == FullBlock() + u[..2] && rs[6] == u[0];
    FullBlockSums();
    SumJoin(FullBlock(), u[..2]);
    NameSurvives(b3, 8, 6, 8) by {
      EndsAt(b3, u);
    }
  }

  lemma {:induction false} EndsAt(b: seq<Byte>, u: seq<Ent>)
    requires Tiled(b) && Listing(b) == FullBlock() + u && |u| >= 3 && LastLive(Listing(b), 8) == Some(6)
    requires u[0].reclen == 12
    ensures MergeEnd(b, 8) == 1036 + u[2].reclen
    ensures Sum(u[..2]) == 24 ==> Offset(b, 8) == 1048
  {
    hide Sum, Records, LastLive;
    var rs := FullBlock() + u;
    FullBlockSums();
    assert rs[..6] == FullBlock() && rs[..8] == FullBlock() + u[..2] && rs[6] == u[0] && rs[8] == u[2];
    SumJoin(FullBlock(), u[..2]);
  }

  lemma {:induction false} SumFour(t: seq<Ent>)
    requires |t| == 4
    ensures Sum(t) == t[0].reclen + t[1].reclen + t[2].reclen + t[3].reclen && Sum(t[..2]) == t[0].reclen + t[1].reclen
  {
    hide Sum;
    SumNothing(t);
    SumNext(t, 0);
    SumNext(t, 1);
    SumNext(t, 2);
    SumNext(t, 3);
    assert t[..4] == t;
  }

  /** "w" has one record: no name of the first block has one letter but ".". */
  lemma {:induction false} OnlyW(u: seq<Ent>)
    requires u == [Ent(14, 12, [97]), Ent(0, 12, []), W(), Ent(16, 988, [122])]
    ensures OnlyEntry(FullBlock() + u, 8)
  {
    var rs := FullBlock() + u;
    var name := W().name;
    assert rs[..8] == FullBlock() + [u[0], u[1]] && rs[9..] == [u[3]];
    NotNamed(FullBlock() + [u[0], u[1]], name);
    NotNamed([u[3]], name);
  }

  lemma {:induction false} NotNamed(rs: seq<Ent>, name: seq<Byte>)
    requires forall i | 0 <= i < |rs| :: rs[i].name != name
    ensures Find(rs, name) == 0
  {
    if rs != [] {
      NotNamed(rs[1..], name);
    }
  }

  /** A removal after which the directory can no longer be read: the merged record ends in the zeros behind
      the removed name. */
  lemma {:induction false} RemovalBreaksTiling() returns (b0: seq<Byte>, b1: seq<Byte>, b2: seq<Byte>, b3: seq<Byte>)
    ensures Tiled(b0) && |Listing(b0)| == 9 && Adjacent(Listing(b0), 6) && b1 == RemoveBytes(b0, 6)
    ensures Tiled(b1) && |Listing(b1)| == 9 && Adjacent(Listing(b1), 7) && b2 == RemoveBytes(b1, 7)
    ensures Tiled(b2) && Tiled(b3) && Listing(b3) == InsertRecs(Listing(b2), [97], 14)
    ensures |Listing(b3)| == 9 && Listing(b3)[8].ino == 13 && !Tiled(RemoveBytes(b3, 8))
  {
    hide Sum, Records, ReadDirent, LastLive, RemoveBytes, SplitBytes, InsertRecs, Bytes;
    var z := Ent(13, 1000, [122]);
    var t := [Ent(11, 12, [120]), Ent(12, 12, [121]), z];
    SumThree(t);
    b0, b1, b2, b3 := Prepare(t);
    var u := Renamed(Freed(Freed(t, 0), 1));
    EndsAt(b3, u);
    SecondBlock(t);
    LastZeros(FullBlock() + t, z);
    assert b3[2036 + 4] == b3[1048..][992] == b0[1048..][992] && b3[2036 + 5] == b3[1048..][993] == b0[1048..][993];
    TilingBreaks(b3, 8, 6);
  }

  lemma {:induction false} SumThree(t: seq<Ent>)
    requires |t| == 3
    ensures Sum(t) == t[0].reclen + t[1].reclen + t[2].reclen
  {
    hide Sum;
    SumNothing(t);
    SumNext(t, 0);
    SumNext(t, 1);
    SumNext(t, 2);
    assert t[..3] == t;
  }

  /** A written record is zero behind its name. */
  lemma {:induction false} LastZeros(rs: seq<Ent>, z: Ent)
    requires rs != [] && WellPlaced(rs) && rs[|rs| - 1] == z && z.reclen == 1000 && |z.name| == 1 && |Bytes(rs)| == 2048
    ensures Bytes(rs)[1048..][992] == 0 && Bytes(rs)[1048..][993] == 0
  {
    BytesSnoc(rs);
    hide Sum, Bytes;
    var s := Raw(z.ino, z.reclen, z.name);
    assert Bytes(rs)[1048..] == s;
  }
}
