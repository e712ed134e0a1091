/** A directory in place: lookup, insertion and removal. */
module Directories {
  import opened Faults
  import opened Options
  import opened Scale
  import opened DirRecords
  import opened DirRemoval

  /** `prev` is the offset of the last live record before `off` in its block, record `j` of the directory. */
  ghost predicate Behind(b: seq<Byte>, off: nat, prev: Option<nat>, j: nat)
    requires off <= |b| && Records(b, 0, off).Some?
  {
    var pre := Records(b, 0, off).value;
    match prev
    case None => LastLive(pre, |pre|) == None
    case Some(p) => LastLive(pre, |pre|) == Some(j) && BehindAt(b, pre, p, j)
  }

  ghost predicate BehindAt(b: seq<Byte>, pre: seq<Ent>, p: nat, j: nat) {
    && p <= |b| && j < |pre|
    && Records(b, 0, p) == Some(pre[..j]) && ReadDirent(b, p) == Some(pre[j])
  }

  lemma {:induction false} BlockStart(b: seq<Byte>, off: nat, j: nat)
    requires off <= |b| && Records(b, 0, off).Some? && off % DIRBLKSIZ == 0
    ensures Behind(b, off, None, j)
  {
    RecordsSum(b, 0, off);
    assert Records(b, 0, off).value[..|Records(b, 0, off).value|] == Records(b, 0, off).value;
  }

  lemma {:induction false} BehindStep(b: seq<Byte>, off: nat, prev: Option<nat>, j: nat)
    requires off <= |b| && Records(b, 0, off).Some? && ReadDirent(b, off).Some? && Behind(b, off, prev, j)
    ensures var e := ReadDirent(b, off).value;
      var end := off + e.reclen;
      && Records(b, 0, end).Some?
      && (end % DIRBLKSIZ != 0 ==>
        Behind(b, end, if e.ino != 0 then Some(off) else prev, if e.ino != 0 then |Records(b, 0, off).value| else j))
  {
    hide ReadDirent, Records, Sum;
    var e, pre := ReadDirent(b, off).value, Records(b, 0, off).value;
    var more := pre + [e];
    RecordsSnoc(b, off);
    RecordsSum(b, 0, off + e.reclen);
    LastLivePrefix(pre, |pre|, [e]);
    assert more[..|more|] == more && more[..|pre|] == pre;
    if prev.Some? {
      assert more[..j] == pre[..j] && more[j] == pre[j];
    }
  }

  lemma {:induction false} BehindMeans(b: seq<Byte>, off: nat, p: nat, j: nat)
    requires off < |b| && Records(b, 0, off).Some? && Behind(b, off, Some(p), j) && ReadDirent(b, off).Some?
    ensures p <= |b| && MergeOk(b, p, off) && p + 6 <= |b|
  {
    ReadMeans(b, p);
    ReadMeans(b, off);
  }

  ghost predicate MergeOk(b: seq<Byte>, p: nat, off: nat) {
    ReadDirent(b, p).Some? && ReadDirent(b, off).Some?
    && ReadDirent(b, p).value.reclen + ReadDirent(b, off).value.reclen < 0x1_0000
  }

  /** The bytes that removal writes for the record at `off`. */
  ghost function RemovedBytes(b: seq<Byte>, off: nat, prev: Option<nat>): (c: seq<Byte>)
    requires ReadDirent(b, off).Some?
    requires prev.Some? ==> MergeOk(b, prev.value, off)
  {
    match prev
    case None => Put(b, off, Write32(0))
    case Some(p) => Put(b, p + 4, Write16(ReadDirent(b, p).value.reclen + ReadDirent(b, off).value.reclen))
  }

  /** The scan writes what removal of that record is defined to write. */
  lemma {:induction false} RemovedHere(b: seq<Byte>, off: nat, prev: Option<nat>, j: nat)
    requires Tiled(b) && off < |b| && Records(b, 0, off).Some? && Behind(b, off, prev, j) && ReadDirent(b, off).Some?
    requires prev.Some? ==> MergeOk(b, prev.value, off)
    ensures var rs, k := Listing(b), |Records(b, 0, off).value|;
      && k < |rs| && rs[k] == ReadDirent(b, off).value && rs[..k] == Records(b, 0, off).value
      && RemovedBytes(b, off, prev) == RemoveBytes(b, k)
  {
    hide ReadDirent, Sum, Write16, Write32, LastLive, Records;
    var rs, pre := Listing(b), Records(b, 0, off).value;
    var k := |pre|;
    ScanPosition(b, off);
    SameLast(rs, k);
    assert Offset(b, k) == off;
    if prev.Some? {
      RecordsSum(b, 0, prev.value);
      assert pre[..j] == rs[..j] && pre[j] == rs[j];
      assert Offset(b, j) == prev.value;
    }
  }

  lemma {:induction false} InsertFinds(rs: seq<Ent>, name: seq<Byte>, ino: nat)
    requires ino != 0
    ensures Find(rs, name) == 0 ==>
      forall other :: Find(InsertRecs(rs, name, ino), other) == if other == name then ino else Find(rs, other)
  {
    if Find(rs, name) == 0 {
      forall other
        ensures Find(InsertRecs(rs, name, ino), other) == if other == name then ino else Find(rs, other)
      {
        InsertFind(rs, name, ino, other);
      }
    }
  }

  /** What a removal achieves. */
  lemma {:induction false} Removed(b: seq<Byte>, k: nat, name: seq<Byte>)
    requires Tiled(b) && k < |Listing(b)| && Listing(b)[k].ino != 0 && Listing(b)[k].name == name && Find(Listing(b)[..k], name) == 0
    ensures var rs, c := Listing(b), RemoveBytes(b, k);
      && (Find(rs[k + 1..], name) == 0 ==> (RemovesOnly(b, c, name) <==> SafeToRemove(b, k)))
      && (Adjacent(rs, k) ==> SafeToRemove(b, k) && Tiled(c) && Listing(c) == RemoveRecs(rs, k))
  {
    hide RemovesOnly, SafeToRemove, RemoveBytes, RemoveRecs, LastLive, ReadDirent, Sum, Records;
    if OnlyEntry(Listing(b), k) {
      RemovalExact(b, k);
    }
    if Adjacent(Listing(b), k) {
      AdjacentSafe(b, k);
      AdjacentBytes(b, k);
    }
  }

  /** In a tiled directory the scan can read on, and the first live record with the name is the one found. */
  lemma {:induction false} ScanSees(b: seq<Byte>, off: nat, name: seq<Byte>)
    requires off <= |b| && Records(b, 0, off).Some? && Find(Records(b, 0, off).value, name) == 0
    ensures Tiled(b) && off < |b| ==> ReadDirent(b, off).Some? && FoundHere(b, ReadDirent(b, off).value, name)
    ensures Tiled(b) && off == |b| ==> Find(Listing(b), name) == 0
  {
    hide ReadDirent, Find, Sum;
    if Tiled(b) {
      ScanPosition(b, off);
      if off < |b| {
        FindAt(Listing(b), Records(b, 0, off).value, name);
      }
    }
  }

  lemma {:induction false} NothingRead(b: seq<Byte>, name: seq<Byte>)
    ensures Records(b, 0, 0) == Some([]) && Find([], name) == 0
  {
  }

  predicate FoundHere(b: seq<Byte>, e: Ent, name: seq<Byte>)
    requires Tiled(b)
  {
    e.ino != 0 && e.name == name ==> Find(Listing(b), name) == e.ino
  }

  class Directory {
    var data: seq<Byte>
    const faults: seq<bool>
    var tick: nat

    constructor (data: seq<Byte>, faults: seq<bool>)
      ensures this.data == data && this.faults == faults
    {
      this.data, this.faults, tick := data, faults, 0;
    }

    /** A read or write of the image may fail. */
    method Io() returns (ok: bool)
      modifies this`tick
      ensures tick == old(tick) + 1 && ok == Fine(faults, old(tick), tick)
    {
      ok := !Fails(faults, tick);
      tick := tick + 1;
    }

    /** `nextufs__find_name_in_directory` over `nextufs_directory_iterate`. */
    method Lookup(name: seq<Byte>) returns (ok: bool, ino: nat)
      modifies this`tick
      ensures old(tick) <= tick && (ok ==> Fine(faults, old(tick), tick))
      ensures Fine(faults, old(tick), tick) && Tiled(data) ==> ok
      ensures ok && Tiled(data) ==> ino == Find(Listing(data), name)
    {
      hide ReadDirent, Find;
      ino := 0;
      ok := Io();
      if !ok {
        return;
      }
      var off: nat := 0;
      FindNone(name);
      while off < |data|
        invariant off <= |data| && Records(data, 0, off).Some?
        invariant ok && old(tick) <= tick && Fine(faults, old(tick), tick)
        invariant Find(Records(data, 0, off).value, name) == 0
        decreases |data| - off
      {
        ScanSees(data, off, name);
        var ent := ReadDirent(data, off);
        if ent.None? {
          return false, 0;
        }
        var e := ent.value;
        if e.ino != 0 && e.name == name {
          return true, e.ino;
        }
        RecordsSnoc(data, off);
        FindSnoc(Records(data, 0, off).value, e, name);
        off := off + e.reclen;
      }
      ScanSees(data, off, name);
    }

    /** `nextufs__insert_dirent` */
    method Insert(name: seq<Byte>, ino: nat) returns (ok: bool)
      requires |data| % DIRBLKSIZ == 0 && NameOk(name) && 0 < ino < 0x1_0000_0000
      modifies this
      ensures |data| % DIRBLKSIZ == 0 && (!ok ==> data == old(data))
      ensures old(tick) <= tick && (ok ==> Fine(faults, old(tick), tick))
      ensures Fine(faults, old(tick), tick) && Tiled(old(data)) ==> ok
      ensures ok && Tiled(old(data)) ==> Tiled(data) && Listing(data) == InsertRecs(Listing(old(data)), name, ino)
      ensures ok && Tiled(old(data)) && Find(Listing(old(data)), name) == 0 ==>
        forall other :: Find(Listing(data), other) == if other == name then ino else Find(Listing(old(data)), other)
    {
      hide ReadDirent, Raw, InsertRecs, DirentSize, Place, Used, Find;
      var need := DirentSize(|name|);
      ghost var b := data;
      ok := Io();
      if !ok {
        return;
      }
      var off: nat := 0;
      while off < |data|
        invariant data == b && off <= |data| && Records(data, 0, off).Some?
        invariant ok && old(tick) <= tick && Fine(faults, old(tick), tick)
        invariant NoneUsable(Records(data, 0, off).value, need)
        decreases |data| - off
      {
        if Tiled(b) {
          ScanPosition(b, off);
        }
        var ent := ReadDirent(data, off);
        if ent.None? {
          return false;
        }
        var e := ent.value;
        if Usable(e, need) {
          ok := Io();
          if !ok {
            return;
          }
          ReadMeans(data, off);
          data := SplitBytes(data, off, e, name, ino);
          if Tiled(b) {
            InsertedHere(b, off, name, ino);
            InsertFinds(Listing(b), name, ino);
          }
          return true;
        }
        RecordsSnoc(data, off);
        off := off + e.reclen;
      }
      ok := Io();              // the directory may not grow
      if !ok {
        return;
      }
      GrownFits(name);
      data := data + Raw(ino, DIRBLKSIZ, name);
      if Tiled(b) {
        ScanPosition(b, off);
        InsertedLast(b, name, ino);
        InsertFinds(Listing(b), name, ino);
      }
    }

    /** `nextufs__remove_dirent`. The bytes of the removed record go to the last live record seen in its
        block, wherever that is: see `RemovalExact` for when that removes the name and nothing else. */
    method Remove(name: seq<Byte>) returns (ok: bool, ino: nat, ghost k: nat)
      requires |data| % DIRBLKSIZ == 0
      modifies this
      ensures !ok ==> data == old(data)
      ensures old(tick) <= tick && (ok ==> Fine(faults, old(tick), tick))
      ensures Fine(faults, old(tick), tick) && Tiled(old(data)) ==>
        (ok <==> Find(Listing(old(data)), name) != 0 && name != [46] && name != [46, 46])
      ensures ok && Tiled(old(data)) ==>
        var rs := Listing(old(data));
        && k < |rs| && rs[k].ino == ino != 0 && rs[k].name == name && Find(rs[..k], name) == 0
        && data == RemoveBytes(old(data), k)
        && (Find(rs[k + 1..], name) == 0 ==> (RemovesOnly(old(data), data, name) <==> SafeToRemove(old(data), k)))
        && (Adjacent(rs, k) ==> SafeToRemove(old(data), k) && Tiled(data) && Listing(data) == RemoveRecs(rs, k))
      ensures ok ==> name != [46] && name != [46, 46]
    {
      hide ReadDirent, Find, LastLive, Write16, Write32, Sum, Tiled, Listing, RemovesOnly, SafeToRemove, Adjacent,
        RemoveRecs, RemoveBytes, Records, Behind;
      ghost var b := data;
      ino, k := 0, 0;
      ok := Io();
      if !ok {
        return;
      }
      var off: nat := 0;
      var prev: Option<nat> := None;
      ghost var j: nat := 0;
      NothingRead(data, name);
      while off < |data|
        invariant data == b && off <= |data| && Records(data, 0, off).Some?
        invariant ok && old(tick) <= tick && Fine(faults, old(tick), tick)
        invariant Find(Records(data, 0, off).value, name) == 0
        invariant off % DIRBLKSIZ != 0 ==> Behind(data, off, prev, j)
        decreases |data| - off
      {
        if off % DIRBLKSIZ == 0 {
          prev := None;
          BlockStart(data, off, j);
        }
        ScanSees(b, off, name);
        var ent := ReadDirent(data, off);
        if ent.None? {
          return false, 0, 0;
        }
        var e := ent.value;
        if e.ino != 0 && e.name == name {
          if name == [46] || name == [46, 46] {
            return false, 0, 0;
          }
          ok := Io();
          if !ok {
            return;
          }
          ino := e.ino;
          if prev.Some? {
            BehindMeans(data, off, prev.value, j);
            var p := ReadDirent(data, prev.value).value;
            data := Put(data, prev.value + 4, Write16(p.reclen + e.reclen));
          } else {
            ReadMeans(data, off);
            data := Put(data, off, Write32(0));
          }
          k := |Records(b, 0, off).value|;
          if Tiled(b) {
            RemovedHere(b, off, prev, j);
            Removed(b, k, name);
          }
          return true, ino, k;
        }
        RecordsSnoc(data, off);
        FindSnoc(Records(data, 0, off).value, e, name);
        BehindStep(data, off, prev, j);
        if e.ino != 0 {
          prev, j := Some(off), |Records(data, 0, off).value|;
        }
        off := off + e.reclen;
      }
      ScanSees(b, off, name);
      ok := false;
    }
  }
}
