/** Directory blocks. A directory is a sequence of records; every 1024 bytes start a new record. */
module DirRecords {
  import opened Options
  import opened Scale

  const DIRBLKSIZ := 1024
  const SLASH: Byte := 47

  /** A record; inode 0 marks a free one. */
  datatype Ent = Ent(ino: nat, reclen: nat, name: seq<Byte>)

  function Read16(s: seq<Byte>, p: nat): (v: nat)
    requires p + 2 <= |s|
    ensures v < 0x1_0000
  {
    s[p] as int * 256 + s[p + 1] as int
  }

  function Write16(v: nat): (s: seq<Byte>)
    requires v < 0x1_0000
    ensures |s| == 2 && Read16(s, 0) == v
  {
    [(v / 256) as Byte, (v % 256) as Byte]
  }

  /** `nextufs__dirent_size` */
  function DirentSize(n: nat): (m: nat)
    ensures m % 4 == 0 && 8 + n < m <= 12 + n
  {
    8 + 4 * ((n + 4) / 4)
  }

  /** A name that can be stored. */
  predicate NameOk(name: seq<Byte>) {
    0 < |name| <= 255 && 0 !in name && SLASH !in name
  }

  /** `nextufs__read_dirent` */
  function ReadDirent(b: seq<Byte>, off: nat): (e: Option<Ent>)
    ensures e.Some? ==> off + e.value.reclen <= |b| && 8 <= e.value.reclen
  {
    if off > |b| || |b| - off < 8 then None
    else
      var ino, reclen, n := Read32(b, off), Read16(b, off + 4), Read16(b, off + 6);
      if reclen < 8 || reclen % 4 != 0 || reclen > |b| - off || reclen > DIRBLKSIZ - off % DIRBLKSIZ then None
      else if ino == 0 then Some(Ent(0, reclen, []))
      else if n == 0 || n > 255 || DirentSize(n) > reclen then None
      else
        var name := b[off + 8..off + 8 + n];
        if 0 in name || SLASH in name || b[off + 8 + n] != 0 then None else Some(Ent(ino, reclen, name))
  }

  /** The records from byte `x` to byte `y`, if they tile that range. */
  function Records(b: seq<Byte>, x: nat, y: nat): (rs: Option<seq<Ent>>)
    requires y <= |b|
    decreases |b| - x
  {
    if x == y then Some([])
    else
      match ReadDirent(b, x)
      case None => None
      case Some(e) =>
        if x + e.reclen > y then None else
        match Records(b, x + e.reclen, y)
        case None => None
        case Some(rs) => Some([e] + rs)
  }

  /** A directory whose blocks are tiled by records. */
  predicate Tiled(b: seq<Byte>) {
    |b| % DIRBLKSIZ == 0 && Records(b, 0, |b|).Some?
  }

  function Listing(b: seq<Byte>): seq<Ent>
    requires Tiled(b)
  {
    Records(b, 0, |b|).value
  }

  // ----- reading is local -----

  lemma {:induction false} ReadFrame(b: seq<Byte>, c: seq<Byte>, off: nat)
    requires ReadDirent(b, off).Some?
    requires var end := off + ReadDirent(b, off).value.reclen; end <= |c| && c[off..end] == b[off..end]
    ensures ReadDirent(c, off) == ReadDirent(b, off)
  {
    var e := ReadDirent(b, off).value;
    var end := off + e.reclen;
    forall i | off <= i < end
      ensures c[i] == b[i]
    {
      assert c[off..end][i - off] == b[off..end][i - off];
    }
    var n := Read16(b, off + 6);
    if e.ino != 0 {
      assert c[off + 8..off + 8 + n] == b[off + 8..off + 8 + n];
    }
  }

  lemma {:induction false} RecordsFrame(b: seq<Byte>, c: seq<Byte>, x: nat, y: nat)
    requires x <= y <= |b| && y <= |c| && c[x..y] == b[x..y] && Records(b, x, y).Some?
    ensures Records(c, x, y) == Records(b, x, y)
    decreases y - x
  {
    hide ReadDirent;
    if x < y {
      var e := ReadDirent(b, x).value;
      var z := x + e.reclen;
      assert c[x..z] == c[x..y][..e.reclen] == b[x..y][..e.reclen] == b[x..z];
      assert c[z..y] == c[x..y][e.reclen..] == b[x..y][e.reclen..] == b[z..y];
      ReadFrame(b, c, x);
      RecordsFrame(b, c, z, y);
    }
  }

  lemma {:induction false} RecordsJoin(b: seq<Byte>, x: nat, y: nat, z: nat)
    requires x <= y <= z <= |b| && Records(b, x, y).Some? && Records(b, y, z).Some?
    ensures Records(b, x, z) == Some(Records(b, x, y).value + Records(b, y, z).value)
    decreases y - x
  {
    hide ReadDirent;
    if x < y {
      var e := ReadDirent(b, x).value;
      RecordsJoin(b, x + e.reclen, y, z);
      assert [e] + Records(b, x + e.reclen, y).value + Records(b, y, z).value
        == [e] + (Records(b, x + e.reclen, y).value + Records(b, y, z).value);
    } else {
      assert [] + Records(b, y, z).value == Records(b, y, z).value;
    }
  }

  lemma {:induction false} RecordsOne(b: seq<Byte>, x: nat)
    requires ReadDirent(b, x).Some?
    ensures Records(b, x, x + ReadDirent(b, x).value.reclen) == Some([ReadDirent(b, x).value])
  {
    var e := ReadDirent(b, x).value;
    assert Records(b, x + e.reclen, x + e.reclen) == Some([]) && [e] + [] == [e];
  }

  // ----- writing a record -----

  /** `nextufs__write_dirent_raw` */
  function Raw(ino: nat, reclen: nat, name: seq<Byte>): (s: seq<Byte>)
    requires ino < 0x1_0000_0000 && reclen < 0x1_0000 && |name| < 0x1_0000 && 8 + |name| <= reclen
    ensures |s| == reclen
  {
    Write32(ino) + Write16(reclen) + Write16(|name|) + name + Zeros(reclen - 8 - |name|)
  }

  ghost predicate Fits(b: seq<Byte>, off: nat, reclen: nat) {
    off + reclen <= |b| && reclen % 4 == 0 && 8 <= reclen <= DIRBLKSIZ - off % DIRBLKSIZ
  }

  lemma {:induction false} RawBytes(ino: nat, reclen: nat, name: seq<Byte>, s: seq<Byte>)
    requires ino < 0x1_0000_0000 && reclen < 0x1_0000 && |name| < 0x1_0000 && 8 + |name| < reclen && s == Raw(ino, reclen, name)
    ensures Read32(s, 0) == ino && Read16(s, 4) == reclen && Read16(s, 6) == |name|
    ensures s[8..8 + |name|] == name && s[8 + |name|] == 0
  {
    assert s[..4] == Write32(ino) && s[4..6] == Write16(reclen) && s[6..8] == Write16(|name|);
    assert forall i | 0 <= i < 4 :: s[i] == s[..4][i];
    assert s[4] == s[4..6][0] && s[5] == s[4..6][1] && s[6] == s[6..8][0] && s[7] == s[6..8][1];
  }

  lemma {:induction false} ReadRaw(b: seq<Byte>, off: nat, ino: nat, reclen: nat, name: seq<Byte>)
    requires 0 < ino < 0x1_0000_0000 && NameOk(name) && DirentSize(|name|) <= reclen && Fits(b, off, reclen)
    requires b[off..off + reclen] == Raw(ino, reclen, name)
    ensures ReadDirent(b, off) == Some(Ent(ino, reclen, name))
  {
    var s := Raw(ino, reclen, name);
    RawBytes(ino, reclen, name, s);
    forall i | 0 <= i < reclen
      ensures b[off + i] == s[i]
    {
      assert b[off..off + reclen][i] == b[off + i];
    }
    assert b[off + 8..off + 8 + |name|] == name;
  }

  /** The fields of a record whose length field was changed. */
  lemma {:induction false} ResizedBytes(b: seq<Byte>, off: nat, reclen: nat, n: nat)
    requires off + 8 + n < |b| && reclen < 0x1_0000
    ensures var c := Put(b, off + 4, Write16(reclen));
      && Read32(c, off) == Read32(b, off) && Read16(c, off + 4) == reclen && Read16(c, off + 6) == Read16(b, off + 6)
      && c[off + 8..off + 8 + n] == b[off + 8..off + 8 + n] && c[off + 8 + n] == b[off + 8 + n]
  {
    var s := Write16(reclen);
    var c := Put(b, off + 4, s);
    assert c[off + 4] == s[0] && c[off + 5] == s[1];
  }

  /** Changing the length field of a live record. */
  lemma {:induction false} ReadResized(b: seq<Byte>, off: nat, reclen: nat)
    requires ReadDirent(b, off).Some? && ReadDirent(b, off).value.ino != 0 && Fits(b, off, reclen)
    requires DirentSize(|ReadDirent(b, off).value.name|) <= reclen
    ensures var e := ReadDirent(b, off).value;
      ReadDirent(Put(b, off + 4, Write16(reclen)), off) == Some(Ent(e.ino, reclen, e.name))
  {
    hide Write16, Read16, Read32;
    ResizedBytes(b, off, reclen, |ReadDirent(b, off).value.name|);
  }

  /** Clearing the inode number of a record frees it. */
  lemma {:induction false} ReadCleared(b: seq<Byte>, off: nat)
    requires ReadDirent(b, off).Some?
    ensures ReadDirent(Put(b, off, Write32(0)), off) == Some(Ent(0, ReadDirent(b, off).value.reclen, []))
  {
    var c := Put(b, off, Write32(0));
    assert forall i | 0 <= i < 4 :: c[off + i] == Write32(0)[i];
  }

  // ----- lookup and insertion on records -----

  /** The inode that a name refers to, or 0. */
  function Find(rs: seq<Ent>, name: seq<Byte>): (ino: nat) {
    if rs == [] then 0
    else if rs[0].ino != 0 && rs[0].name == name then rs[0].ino
    else Find(rs[1..], name)
  }

  /** Bytes of a record that its own entry needs. */
  function Used(e: Ent): nat {
    if e.ino == 0 then 0 else DirentSize(|e.name|)
  }

  predicate Usable(e: Ent, need: nat) {
    e.reclen >= Used(e) + need
  }

  /** A free record is taken whole; of a live one the slack is split off. */
  function Place(e: Ent, name: seq<Byte>, ino: nat): seq<Ent>
    requires Usable(e, DirentSize(|name|))
  {
    if e.ino == 0 then [Ent(ino, e.reclen, name)]
    else [Ent(e.ino, Used(e), e.name), Ent(ino, e.reclen - Used(e), name)]
  }

  function InsertRecs(rs: seq<Ent>, name: seq<Byte>, ino: nat): seq<Ent> {
    if rs == [] then [Ent(ino, DIRBLKSIZ, name)]
    else if Usable(rs[0], DirentSize(|name|)) then Place(rs[0], name, ino) + rs[1..]
    else [rs[0]] + InsertRecs(rs[1..], name, ino)
  }

  /** Insertion adds one name and changes the meaning of no other. */
  lemma {:induction false} InsertFind(rs: seq<Ent>, name: seq<Byte>, ino: nat, other: seq<Byte>)
    requires Find(rs, name) == 0 && ino != 0
    ensures Find(InsertRecs(rs, name, ino), other) == if other == name then ino else Find(rs, other)
  {
    var more := InsertRecs(rs, name, ino);
    if rs != [] {
      if Usable(rs[0], DirentSize(|name|)) {
        assert more[|Place(rs[0], name, ino)|..] == rs[1..];
        if rs[0].ino != 0 {
          assert more[1..][1..] == rs[1..];
        }
        FindLive(rs, name);
      } else {
        FindLive(rs, name);
        assert more[1..] == InsertRecs(rs[1..], name, ino);
        InsertFind(rs[1..], name, ino, other);
      }
    }
  }

  lemma {:induction false} FindLive(rs: seq<Ent>, name: seq<Byte>)
    requires rs != [] && Find(rs, name) == 0
    ensures (rs[0].ino != 0 ==> rs[0].name != name) && Find(rs[1..], name) == 0
  {
  }

  ghost predicate NoneUsable(rs: seq<Ent>, need: nat) {
    forall i | 0 <= i < |rs| :: !Usable(rs[i], need)
  }

  lemma {:induction false} InsertAfter(pre: seq<Ent>, tail: seq<Ent>, name: seq<Byte>, ino: nat)
    requires NoneUsable(pre, DirentSize(|name|))
    ensures InsertRecs(pre + tail, name, ino) == pre + InsertRecs(tail, name, ino)
  {
    if pre == [] {
      assert pre + tail == tail;
    } else {
      assert (pre + tail)[0] == pre[0] && (pre + tail)[1..] == pre[1..] + tail;
      InsertAfter(pre[1..], tail, name, ino);
      assert [pre[0]] + (pre[1..] + InsertRecs(tail, name, ino)) == pre + InsertRecs(tail, name, ino);
    }
  }

  lemma {:induction false} InsertHere(pre: seq<Ent>, e: Ent, tail: seq<Ent>, name: seq<Byte>, ino: nat)
    requires NoneUsable(pre, DirentSize(|name|)) && Usable(e, DirentSize(|name|))
    ensures InsertRecs(pre + ([e] + tail), name, ino) == pre + (Place(e, name, ino) + tail)
  {
    InsertAfter(pre, [e] + tail, name, ino);
    assert ([e] + tail)[1..] == tail;
  }

  // ----- edits of the bytes -----

  lemma {:induction false} RecordsTail(b: seq<Byte>, x: nat, y: nat, z: nat)
    requires x <= y <= z <= |b| && Records(b, x, y).Some? && Records(b, x, z).Some?
    ensures Records(b, y, z).Some? && Records(b, x, z).value == Records(b, x, y).value + Records(b, y, z).value
    decreases y - x
  {
    if x < y {
      RecordsTail(b, x + ReadDirent(b, x).value.reclen, y, z);
      RecordsJoin(b, x, y, z);
    } else {
      RecordsJoin(b, x, y, z);
    }
  }

  lemma {:induction false} RecordsSnoc(b: seq<Byte>, off: nat)
    requires off <= |b| && Records(b, 0, off).Some? && ReadDirent(b, off).Some?
    ensures var e := ReadDirent(b, off).value;
      Records(b, 0, off + e.reclen) == Some(Records(b, 0, off).value + [e])
  {
    RecordsOne(b, off);
    RecordsJoin(b, 0, off, off + ReadDirent(b, off).value.reclen);
  }

  /** Replacing the records of one range by others that tile it. */
  lemma {:induction false} RangeReplaced(b: seq<Byte>, c: seq<Byte>, x: nat, y: nat)
    requires x <= y <= |b| == |c| && c[..x] == b[..x] && c[y..] == b[y..]
    requires Records(b, 0, x).Some? && Records(c, x, y).Some? && Records(b, x, y).Some?
    requires Records(b, 0, |b|).Some?
    ensures Records(b, y, |b|).Some?
    ensures Records(b, 0, |b|).value == Records(b, 0, x).value + (Records(b, x, y).value + Records(b, y, |b|).value)
    ensures Records(c, 0, |c|) == Some(Records(b, 0, x).value + (Records(c, x, y).value + Records(b, y, |b|).value))
  {
    RecordsTail(b, 0, x, |b|);
    RecordsTail(b, x, y, |b|);
    assert c[0..x] == c[..x] == b[..x] == b[0..x];
    RecordsFrame(b, c, 0, x);
    assert c[y..|b|] == c[y..] == b[y..] == b[y..|b|];
    RecordsFrame(b, c, y, |b|);
    RecordsJoin(c, x, y, |c|);
    RecordsJoin(c, 0, x, |c|);
  }

  /** A record with room, split: its length field is cut and the new record follows. */
  function SplitBytes(b: seq<Byte>, off: nat, e: Ent, name: seq<Byte>, ino: nat): (c: seq<Byte>)
    requires off + e.reclen <= |b| && e.reclen <= DIRBLKSIZ && Usable(e, DirentSize(|name|))
    requires NameOk(name) && ino < 0x1_0000_0000 && 8 <= e.reclen
    ensures |c| == |b|
  {
    if e.ino == 0 then Put(b, off, Raw(ino, e.reclen, name))
    else Put(Put(b, off + 4, Write16(Used(e))), off + Used(e), Raw(ino, e.reclen - Used(e), name))
  }

  lemma {:induction false} ReadMeans(b: seq<Byte>, off: nat)
    requires ReadDirent(b, off).Some?
    ensures var e := ReadDirent(b, off).value;
      Fits(b, off, e.reclen) && Used(e) <= e.reclen && (e.ino != 0 ==> NameOk(e.name)) && e.ino < 0x1_0000_0000
  {
  }

  lemma {:induction false} SplitFree(b: seq<Byte>, off: nat, e: Ent, name: seq<Byte>, ino: nat)
    requires ReadDirent(b, off) == Some(e) && NameOk(name) && 0 < ino < 0x1_0000_0000
    requires e.ino == 0 && Usable(e, DirentSize(|name|))
    ensures e.reclen <= DIRBLKSIZ &&
      Records(SplitBytes(b, off, e, name, ino), off, off + e.reclen) == Some(Place(e, name, ino))
  {
    hide ReadDirent, Raw, Records, DirentSize;
    ReadMeans(b, off);
    var c := SplitBytes(b, off, e, name, ino);
    assert c[off..off + e.reclen] == Raw(ino, e.reclen, name);
    ReadRaw(c, off, ino, e.reclen, name);
    RecordsOne(c, off);
  }

  /** The live record keeps its name in its shorter form. */
  lemma {:induction false} SplitKept(b: seq<Byte>, off: nat, e: Ent, s: seq<Byte>)
    requires ReadDirent(b, off) == Some(e) && e.ino != 0 && e.reclen == Used(e) + |s| && e.reclen <= DIRBLKSIZ
    ensures Used(e) >= 8 && ReadDirent(Put(Put(b, off + 4, Write16(Used(e))), off + Used(e), s), off) == Some(Ent(e.ino, Used(e), e.name))
  {
    hide ReadDirent, DirentSize, Write16;
    ReadMeans(b, off);
    var used := Used(e);
    UsedFits(b, off, e);
    var d := Put(b, off + 4, Write16(used));
    var c := Put(d, off + used, s);
    ReadResized(b, off, used);
    assert c[off..off + used] == d[off..off + used];
    ReadFrame(d, c, off);
  }

  lemma {:induction false} UsedFits(b: seq<Byte>, off: nat, e: Ent)
    requires Fits(b, off, e.reclen) && Used(e) <= e.reclen && e.ino != 0
    ensures Used(e) >= 8 && Fits(b, off, Used(e))
    ensures Used(e) < e.reclen ==> (off + Used(e)) % DIRBLKSIZ == off % DIRBLKSIZ + Used(e)
    ensures Used(e) + 8 <= e.reclen ==> Fits(b, off + Used(e), e.reclen - Used(e))
  {
  }

  lemma {:induction false} SplitLive(b: seq<Byte>, off: nat, e: Ent, name: seq<Byte>, ino: nat)
    requires ReadDirent(b, off) == Some(e) && NameOk(name) && 0 < ino < 0x1_0000_0000
    requires e.ino != 0 && Usable(e, DirentSize(|name|))
    ensures e.reclen <= DIRBLKSIZ &&
      Records(SplitBytes(b, off, e, name, ino), off, off + e.reclen) == Some(Place(e, name, ino))
  {
    hide ReadDirent, Raw, Records, DirentSize, Write16;
    ReadMeans(b, off);
    UsedFits(b, off, e);
    var used, slack := Used(e), e.reclen - Used(e);
    var mid := off + used;
    var c := SplitBytes(b, off, e, name, ino);
    SplitKept(b, off, e, Raw(ino, slack, name));
    assert c[mid..mid + slack] == Raw(ino, slack, name);
    ReadRaw(c, mid, ino, slack, name);
    RecordsOne(c, off);
    RecordsOne(c, mid);
    RecordsJoin(c, off, mid, off + e.reclen);
    assert [Ent(e.ino, used, e.name)] + [Ent(ino, slack, name)] == Place(e, name, ino);
  }

  lemma {:induction false} SplitReads(b: seq<Byte>, off: nat, e: Ent, name: seq<Byte>, ino: nat)
    requires ReadDirent(b, off) == Some(e) && NameOk(name) && 0 < ino < 0x1_0000_0000
    requires Usable(e, DirentSize(|name|)) && e.reclen <= DIRBLKSIZ
    ensures var c := SplitBytes(b, off, e, name, ino);
      && c[..off] == b[..off] && c[off + e.reclen..] == b[off + e.reclen..]
      && Records(c, off, off + e.reclen) == Some(Place(e, name, ino))
  {
    hide ReadDirent, Raw, Records, DirentSize, Write16, Place, SplitBytes, Usable;
    SplitOutside(b, off, e, name, ino);
    if e.ino == 0 {
      SplitFree(b, off, e, name, ino);
    } else {
      SplitLive(b, off, e, name, ino);
    }
  }

  lemma {:induction false} SplitOutside(b: seq<Byte>, off: nat, e: Ent, name: seq<Byte>, ino: nat)
    requires off + e.reclen <= |b| && 8 <= e.reclen <= DIRBLKSIZ && Usable(e, DirentSize(|name|))
    requires NameOk(name) && ino < 0x1_0000_0000
    ensures var c := SplitBytes(b, off, e, name, ino);
      c[..off] == b[..off] && c[off + e.reclen..] == b[off + e.reclen..]
  {
  }

  // ----- lists of records -----

  lemma {:induction false} FindJoin(a: seq<Ent>, b: seq<Ent>, name: seq<Byte>)
    ensures Find(a + b, name) == if Find(a, name) != 0 then Find(a, name) else Find(b, name)
  {
    if a == [] {
      assert a + b == b;
    } else {
      assert (a + b)[0] == a[0] && (a + b)[1..] == a[1..] + b;
      FindJoin(a[1..], b, name);
    }
  }

  lemma {:induction false} FindHead(e: Ent, b: seq<Ent>, name: seq<Byte>)
    ensures Find([e] + b, name) == if e.ino != 0 && e.name == name then e.ino else Find(b, name)
  {
    assert ([e] + b)[1..] == b;
  }

  lemma {:induction false} FindNone(name: seq<Byte>)
    ensures Find([], name) == 0
  {
  }

  lemma {:induction false} FindSnoc(pre: seq<Ent>, e: Ent, name: seq<Byte>)
    requires Find(pre, name) == 0 && !(e.ino != 0 && e.name == name)
    ensures Find(pre + [e], name) == 0
  {
    FindJoin(pre, [e], name);
    FindHead(e, [], name);
    assert [e] + [] == [e];
  }

  lemma {:induction false} FindAt(rs: seq<Ent>, pre: seq<Ent>, name: seq<Byte>)
    requires |pre| < |rs| && rs[..|pre|] == pre && Find(pre, name) == 0
    ensures var e := rs[|pre|]; e.ino != 0 && e.name == name ==> Find(rs, name) == e.ino
  {
    var n := |pre|;
    assert rs == pre + ([rs[n]] + rs[n + 1..]);
    FindJoin(pre, [rs[n]] + rs[n + 1..], name);
    FindHead(rs[n], rs[n + 1..], name);
  }

  function Sum(rs: seq<Ent>): (n: nat) {
    if rs == [] then 0 else Sum(rs[..|rs| - 1]) + rs[|rs| - 1].reclen
  }

  lemma {:induction false} SumJoin(a: seq<Ent>, b: seq<Ent>)
    ensures Sum(a + b) == Sum(a) + Sum(b)
  {
    if b == [] {
      assert a + b == a;
    } else {
      var c, x := b[..|b| - 1], b[|b| - 1];
      SumJoin(a, c);
      assert b == c + [x];
      assert a + (c + [x]) == (a + c) + [x];
      SumSnoc(c, x);
      SumSnoc(a + c, x);
    }
  }

  lemma {:induction false} SumSnoc(a: seq<Ent>, e: Ent)
    ensures Sum(a + [e]) == Sum(a) + e.reclen
  {
    assert (a + [e])[..|a|] == a;
  }

  lemma {:induction false} SumOne(e: Ent, rest: seq<Ent>)
    ensures Sum([e] + rest) == e.reclen + Sum(rest)
  {
    SumJoin([e], rest);
    SumSnoc([], e);
    assert [] + [e] == [e];
  }

  lemma {:induction false} RecordsSum(b: seq<Byte>, x: nat, y: nat)
    requires x <= y <= |b| && Records(b, x, y).Some?
    ensures x + Sum(Records(b, x, y).value) == y
    decreases y - x
  {
    hide ReadDirent;
    if x < y {
      var e := ReadDirent(b, x).value;
      var rest := Records(b, x + e.reclen, y).value;
      RecordsSum(b, x + e.reclen, y);
      SumJoin([e], rest);
      assert Sum([e]) == e.reclen by { SumSnoc([], e); assert [] + [e] == [e]; }
    }
  }

  // ----- insertion in the bytes -----

  lemma {:induction false} InsertedHere(b: seq<Byte>, off: nat, name: seq<Byte>, ino: nat)
    requires Tiled(b) && off <= |b| && Records(b, 0, off).Some? && ReadDirent(b, off).Some?
    requires NoneUsable(Records(b, 0, off).value, DirentSize(|name|)) && NameOk(name) && 0 < ino < 0x1_0000_0000
    requires var e := ReadDirent(b, off).value; Usable(e, DirentSize(|name|)) && e.reclen <= DIRBLKSIZ
    ensures var c := SplitBytes(b, off, ReadDirent(b, off).value, name, ino);
      Tiled(c) && Listing(c) == InsertRecs(Listing(b), name, ino)
  {
    var e := ReadDirent(b, off).value;
    hide ReadDirent, Raw, InsertRecs, DirentSize, Place, SplitBytes, Usable;
    var c := SplitBytes(b, off, e, name, ino);
    SplitReads(b, off, e, name, ino);
    RecordsOne(b, off);
    RangeReplaced(b, c, off, off + e.reclen);
    InsertHere(Records(b, 0, off).value, e, Records(b, off + e.reclen, |b|).value, name, ino);
  }

  lemma {:induction false} GrownFits(name: seq<Byte>)
    requires NameOk(name)
    ensures DirentSize(|name|) <= DIRBLKSIZ
  {
  }

  lemma {:induction false} InsertedLast(b: seq<Byte>, name: seq<Byte>, ino: nat)
    requires Tiled(b) && NoneUsable(Listing(b), DirentSize(|name|)) && NameOk(name) && 0 < ino < 0x1_0000_0000
    ensures var c := b + Raw(ino, DIRBLKSIZ, name);
      Tiled(c) && Listing(c) == InsertRecs(Listing(b), name, ino)
  {
    InsertEnd(Listing(b), name, ino);
    hide ReadDirent, Raw, InsertRecs, DirentSize, Records;
    GrownFits(name);
    var raw := Raw(ino, DIRBLKSIZ, name);
    Appended(b, raw);
    RecordsFrame(b, b + raw, 0, |b|);
    ReadRaw(b + raw, |b|, ino, DIRBLKSIZ, name);
    RecordsOne(b + raw, |b|);
    RecordsJoin(b + raw, 0, |b|, |b + raw|);
  }

  lemma {:induction false} InsertEnd(rs: seq<Ent>, name: seq<Byte>, ino: nat)
    requires NoneUsable(rs, DirentSize(|name|))
    ensures InsertRecs(rs, name, ino) == rs + [Ent(ino, DIRBLKSIZ, name)]
  {
    InsertAfter(rs, [], name, ino);
    assert rs + [] == rs;
  }

  lemma {:induction false} Appended(b: seq<Byte>, s: seq<Byte>)
    requires |b| % DIRBLKSIZ == 0 && |s| == DIRBLKSIZ
    ensures (b + s)[0..|b|] == b[0..|b|] && (b + s)[|b|..|b| + DIRBLKSIZ] == s && |b + s| % DIRBLKSIZ == 0
  {
  }

  /** The scan has read the records before `off` of a tiled directory. */
  lemma {:induction false} ScanPosition(b: seq<Byte>, off: nat)
    requires off <= |b| && Records(b, 0, off).Some? && Records(b, 0, |b|).Some?
    ensures var rs, pre := Records(b, 0, |b|).value, Records(b, 0, off).value;
      && |pre| <= |rs| && rs[..|pre|] == pre && Sum(pre) == off
      && (off == |b| ==> rs == pre)
      && (off < |b| ==> ReadDirent(b, off).Some? && |pre| < |rs| && rs[|pre|] == ReadDirent(b, off).value)
  {
    hide ReadDirent;
    RecordsTail(b, 0, off, |b|);
    RecordsSum(b, 0, off);
  }
}
