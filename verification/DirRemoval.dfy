/** Removal of a directory record: what the intended result is, and what the bytes become. */
module DirRemoval {
  import opened Options
  import opened Scale
  import opened DirRecords

  /** The last live record before record `k` in its block. */
  function LastLive(rs: seq<Ent>, k: nat): (j: Option<nat>)
    requires k <= |rs|
    ensures j.Some? ==> j.value < k && rs[j.value].ino != 0
  {
    if k == 0 || Sum(rs[..k]) % DIRBLKSIZ == 0 then None
    else if rs[k - 1].ino != 0 then Some(k - 1)
    else LastLive(rs, k - 1)
  }

  lemma {:induction false} LastLivePrefix(rs: seq<Ent>, k: nat, more: seq<Ent>)
    requires k <= |rs|
    ensures LastLive(rs + more, k) == LastLive(rs, k)
  {
    assert (rs + more)[..k] == rs[..k];
    if k > 0 {
      LastLivePrefix(rs, k - 1, more);
    }
  }

  lemma {:induction false} SameLast(rs: seq<Ent>, k: nat)
    requires k <= |rs|
    ensures LastLive(rs, k) == LastLive(rs[..k], k)
  {
    assert rs == rs[..k] + rs[k..];
    LastLivePrefix(rs[..k], k, rs[k..]);
  }

  // ----- where the records lie -----

  lemma {:induction false} SumSplit(rs: seq<Ent>, k: nat)
    requires k < |rs|
    ensures Sum(rs) == Sum(rs[..k]) + rs[k].reclen + Sum(rs[k + 1..])
  {
    assert rs == rs[..k] + ([rs[k]] + rs[k + 1..]);
    SumJoin(rs[..k], [rs[k]] + rs[k + 1..]);
    SumOne(rs[k], rs[k + 1..]);
  }

  lemma {:induction false} SumNext(rs: seq<Ent>, i: nat)
    requires i < |rs|
    ensures Sum(rs[..i + 1]) == Sum(rs[..i]) + rs[i].reclen
  {
    assert rs[..i + 1] == rs[..i] + [rs[i]];
    SumSnoc(rs[..i], rs[i]);
  }

  /** The bytes of a tiled range divide at the end of each record. */
  lemma {:induction false} RecordsFrom(b: seq<Byte>, x: nat, y: nat, i: nat)
    requires x <= y <= |b| && Records(b, x, y).Some? && i <= |Records(b, x, y).value|
    ensures var rs := Records(b, x, y).value;
      var z := x + Sum(rs[..i]);
      z <= y && Records(b, x, z) == Some(rs[..i]) && Records(b, z, y) == Some(rs[i..])
    decreases y - x
  {
    hide ReadDirent, Sum;
    var rs := Records(b, x, y).value;
    if i == 0 {
      assert Sum(rs[..0]) == 0 by { SumNothing(rs); }
      assert rs[0..] == rs;
    } else {
      var e := ReadDirent(b, x).value;
      var rest := Records(b, x + e.reclen, y).value;
      assert rs == [e] + rest && rs[..i] == [e] + rest[..i - 1] && rs[i..] == rest[i - 1..];
      RecordsFrom(b, x + e.reclen, y, i - 1);
      SumOne(e, rest[..i - 1]);
      RecordsOne(b, x);
      RecordsJoin(b, x, x + e.reclen, x + Sum(rs[..i]));
    }
  }

  lemma {:induction false} SumNothing(rs: seq<Ent>)
    ensures Sum(rs[..0]) == 0
  {
  }

  /** Where record `i` of the directory begins. */
  function Offset(b: seq<Byte>, i: nat): (off: nat)
    requires Tiled(b) && i <= |Listing(b)|
    ensures off <= |b|
  {
    RecordsFrom(b, 0, |b|, i);
    Sum(Listing(b)[..i])
  }

  lemma {:induction false} RecordAt(b: seq<Byte>, i: nat)
    requires Tiled(b) && i < |Listing(b)|
    ensures var rs, off := Listing(b), Offset(b, i);
      && ReadDirent(b, off) == Some(rs[i]) && off + rs[i].reclen <= |b|
      && Records(b, 0, off) == Some(rs[..i]) && Records(b, off, |b|) == Some(rs[i..])
      && Offset(b, i + 1) == off + rs[i].reclen
  {
    var rs := Listing(b);
    RecordsFrom(b, 0, |b|, i);
    SumNext(rs, i);
    assert rs[i..][0] == rs[i];
  }

  /** The last live record stands in the same block, and everything between is free. */
  lemma {:induction false} SameBlock(b: seq<Byte>, k: nat, j: nat)
    requires Tiled(b) && k <= |Listing(b)| && LastLive(Listing(b), k) == Some(j)
    ensures Offset(b, j) < Offset(b, k)
    ensures Offset(b, j) % DIRBLKSIZ + (Offset(b, k) - Offset(b, j)) == Offset(b, k) % DIRBLKSIZ
    ensures forall i | j < i < k :: Listing(b)[i].ino == 0
    decreases k
  {
    hide ReadDirent, Sum, Records;
    var rs := Listing(b);
    RecordAt(b, k - 1);
    ReadMeans(b, Offset(b, k - 1));
    if rs[k - 1].ino == 0 {
      SameBlock(b, k - 1, j);
    }
  }

  // ----- what removal means and what it writes -----

  /** Removal of record `k` as intended: the live record directly before it takes its bytes; without a
      live record before it in the block it becomes free. */
  function RemoveRecs(rs: seq<Ent>, k: nat): seq<Ent>
    requires k < |rs| && Adjacent(rs, k)
  {
    if LastLive(rs, k).None? then rs[..k] + ([Ent(0, rs[k].reclen, [])] + rs[k + 1..])
    else rs[..k - 1] + ([Merged(rs[k - 1], rs[k])] + rs[k + 1..])
  }

  function Merged(p: Ent, e: Ent): Ent {
    Ent(p.ino, p.reclen + e.reclen, p.name)
  }

  /** The last live record of the block, if there is one, lies directly before record `k`. */
  predicate Adjacent(rs: seq<Ent>, k: nat)
    requires k < |rs|
  {
    LastLive(rs, k).Some? ==> LastLive(rs, k) == Some(k - 1)
  }

  lemma {:induction false} MergedFits(b: seq<Byte>, k: nat, j: nat)
    requires Tiled(b) && k < |Listing(b)| && LastLive(Listing(b), k) == Some(j)
    ensures var rs := Listing(b);
      && Fits(b, Offset(b, j), rs[j].reclen + rs[k].reclen)
      && DirentSize(|rs[j].name|) <= rs[j].reclen + rs[k].reclen
      && Offset(b, j) + rs[j].reclen <= Offset(b, k)
  {
    hide ReadDirent, DirentSize, Sum;
    RecordAt(b, k);
    RecordAt(b, j);
    SameBlock(b, k, j);
    ReadMeans(b, Offset(b, k));
    ReadMeans(b, Offset(b, j));
    OffsetOrder(b, j + 1, k);
  }

  lemma {:induction false} OffsetOrder(b: seq<Byte>, i: nat, k: nat)
    requires Tiled(b) && i <= k <= |Listing(b)|
    ensures Offset(b, i) <= Offset(b, k)
  {
    var rs := Listing(b);
    assert rs[..k] == rs[..i] + rs[i..k];
    SumJoin(rs[..i], rs[i..k]);
  }

  /** The bytes that `nextufs__remove_dirent` leaves for record `k`. */
  function RemoveBytes(b: seq<Byte>, k: nat): (c: seq<Byte>)
    requires Tiled(b) && k < |Listing(b)|
    ensures |c| == |b|
  {
    var rs := Listing(b);
    RecordAt(b, k);
    match LastLive(rs, k)
    case None => Put(b, Offset(b, k), Write32(0))
    case Some(j) =>
      MergedFits(b, k, j);
      Put(b, Offset(b, j) + 4, Write16(rs[j].reclen + rs[k].reclen))
  }

  /** Where the merged record ends: at the next record exactly if the two were adjacent. */
  function MergeEnd(b: seq<Byte>, k: nat): (m: nat)
    requires Tiled(b) && k < |Listing(b)| && LastLive(Listing(b), k).Some?
    ensures m <= |b|
  {
    var j := LastLive(Listing(b), k).value;
    MergedFits(b, k, j);
    Offset(b, j) + Listing(b)[j].reclen + Listing(b)[k].reclen
  }

  lemma {:induction false} PutOutside(b: seq<Byte>, p: nat, s: seq<Byte>, x: nat, y: nat)
    requires x <= p && p + |s| <= y <= |b|
    ensures Put(b, p, s)[..x] == b[..x] && Put(b, p, s)[y..] == b[y..]
  {
  }

  lemma {:induction false} FreedIs(b: seq<Byte>, k: nat)
    requires Tiled(b) && k < |Listing(b)| && LastLive(Listing(b), k).None?
    ensures Offset(b, k) + 4 <= |b| && RemoveBytes(b, k) == Put(b, Offset(b, k), Write32(0))
  {
    hide ReadDirent, Sum, Write32, LastLive, Records, Put;
    RecordAt(b, k);
  }

  /** Without a live record before it, the record becomes free and nothing else changes. */
  lemma {:induction false} FreedBytes(b: seq<Byte>, k: nat)
    requires Tiled(b) && k < |Listing(b)| && LastLive(Listing(b), k).None?
    ensures Tiled(RemoveBytes(b, k)) && Listing(RemoveBytes(b, k)) == RemoveRecs(Listing(b), k)
  {
    hide ReadDirent, Sum, Write32, LastLive, RemoveBytes, Records, Put;
    FreedIs(b, k);
    var rs, off := Listing(b), Offset(b, k);
    RecordAt(b, k);
    var c := Put(b, off, Write32(0));
    ReadCleared(b, off);
    RecordsOne(b, off);
    RecordsOne(c, off);
    PutOutside(b, off, Write32(0), off, off + rs[k].reclen);
    RangeReplaced(b, c, off, off + rs[k].reclen);
    RecordsFrom(b, 0, |b|, k + 1);
  }

  lemma {:induction false} MergedIs(b: seq<Byte>, k: nat, j: nat)
    requires Tiled(b) && k < |Listing(b)| && LastLive(Listing(b), k) == Some(j)
    ensures var rs, at := Listing(b), Offset(b, j);
      && Fits(b, at, rs[j].reclen + rs[k].reclen)
      && RemoveBytes(b, k) == Put(b, at + 4, Write16(rs[j].reclen + rs[k].reclen))
      && MergeEnd(b, k) == at + rs[j].reclen + rs[k].reclen
  {
    hide ReadDirent, Sum, Write16, LastLive, DirentSize, Records, Put, Offset;
    RecordAt(b, k);
    MergedFits(b, k, j);
  }

  /** The merged record reads back, and from its end on the bytes are the old ones. */
  lemma {:induction false} MergedBytes(b: seq<Byte>, k: nat, j: nat)
    requires Tiled(b) && k < |Listing(b)| && LastLive(Listing(b), k) == Some(j)
    ensures var rs, c, m := Listing(b), RemoveBytes(b, k), MergeEnd(b, k);
      && Records(c, 0, m) == Some(rs[..j] + [Merged(rs[j], rs[k])])
      && c[m..] == b[m..]
  {
    hide ReadDirent, Sum, Write16, LastLive, DirentSize, RemoveBytes, MergeEnd, Records, Put, Offset;
    var rs, at, m := Listing(b), Offset(b, j), MergeEnd(b, k);
    RecordAt(b, j);
    MergedFits(b, k, j);
    MergedIs(b, k, j);
    var s := Write16(rs[j].reclen + rs[k].reclen);
    var c := Put(b, at + 4, s);
    ReadResized(b, at, rs[j].reclen + rs[k].reclen);
    PutOutside(b, at + 4, s, at, m);
    assert c[0..at] == c[..at] == b[..at] == b[0..at];
    RecordsFrame(b, c, 0, at);
    RecordsOne(c, at);
    RecordsJoin(c, 0, at, m);
  }

  lemma {:induction false} SameTail(b: seq<Byte>, c: seq<Byte>, m: nat)
    requires m <= |b| == |c| && c[m..] == b[m..]
    ensures Records(c, m, |c|) == Records(b, m, |b|)
  {
    assert c[m..|c|] == b[m..|b|];
    if Records(b, m, |b|).Some? {
      RecordsFrame(b, c, m, |b|);
    }
    if Records(c, m, |c|).Some? {
      RecordsFrame(c, b, m, |b|);
    }
  }

  /** After a merge the directory is tiled exactly if the old bytes can be read as records from the end of
      the merged record on, and then these records follow it. */
  lemma {:induction false} MergedListing(b: seq<Byte>, k: nat, j: nat)
    requires Tiled(b) && k < |Listing(b)| && LastLive(Listing(b), k) == Some(j)
    ensures var rs, c, m := Listing(b), RemoveBytes(b, k), MergeEnd(b, k);
      && (Tiled(c) <==> Records(b, m, |b|).Some?)
      && (Tiled(c) ==> Listing(c) == rs[..j] + [Merged(rs[j], rs[k])] + Records(b, m, |b|).value)
  {
    hide ReadDirent, Sum, LastLive, RemoveBytes, MergeEnd, Records;
    var c, m := RemoveBytes(b, k), MergeEnd(b, k);
    MergedBytes(b, k, j);
    SameTail(b, c, m);
    if Records(c, 0, |c|).Some? {
      RecordsTail(c, 0, m, |c|);
    }
    if Records(c, m, |c|).Some? {
      RecordsJoin(c, 0, m, |c|);
    }
  }

  /** Adjacent records merge as intended. */
  lemma {:induction false} AdjacentBytes(b: seq<Byte>, k: nat)
    requires Tiled(b) && k < |Listing(b)| && Adjacent(Listing(b), k)
    ensures Tiled(RemoveBytes(b, k)) && Listing(RemoveBytes(b, k)) == RemoveRecs(Listing(b), k)
    ensures LastLive(Listing(b), k).Some? ==> MergeEnd(b, k) == Offset(b, k + 1)
  {
    hide ReadDirent, Sum, LastLive, RemoveBytes;
    if LastLive(Listing(b), k).None? {
      FreedBytes(b, k);
    } else {
      RecordAt(b, k - 1);
      RecordAt(b, k);
      MergedListing(b, k, k - 1);
      RecordsFrom(b, 0, |b|, k + 1);
    }
  }

  // ----- lookups after a removal -----

  /** The name is gone and every other name means what it meant. */
  ghost predicate RemovesOnly(b: seq<Byte>, c: seq<Byte>, name: seq<Byte>)
    requires Tiled(b)
  {
    Tiled(c) && forall other :: Find(Listing(c), other) == if other == name then 0 else Find(Listing(b), other)
  }

  /** The only record with this name. */
  ghost predicate OnlyEntry(rs: seq<Ent>, k: nat) {
    k < |rs| && rs[k].ino != 0 && Find(rs[..k], rs[k].name) == 0 && Find(rs[k + 1..], rs[k].name) == 0
  }

  /** The names of `names` that are not found in `front` are found alike in `a` and `b`. */
  predicate FoundAlike(names: seq<Ent>, front: seq<Ent>, a: seq<Ent>, b: seq<Ent>) {
    forall i | 0 <= i < |names| && Find(front, names[i].name) == 0 :: Find(a, names[i].name) == Find(b, names[i].name)
  }

  /** Read from the end of the merged record, the old bytes mean the same as the records that follow the
      removed one. Only the names that occur in one of the two are compared. */
  predicate SameMeaning(b: seq<Byte>, k: nat)
    requires Tiled(b) && k < |Listing(b)| && LastLive(Listing(b), k).Some?
  {
    var rs, j, m := Listing(b), LastLive(Listing(b), k).value, MergeEnd(b, k);
    Records(b, m, |b|).Some? &&
    var tail := Records(b, m, |b|).value;
    FoundAlike(tail, rs[..j + 1], tail, rs[k + 1..]) && FoundAlike(rs[k + 1..], rs[..j + 1], tail, rs[k + 1..])
  }

  /** The removal of record `k` does what it should. A caller can compute this from the bytes. */
  predicate SafeToRemove(b: seq<Byte>, k: nat)
    requires Tiled(b) && k < |Listing(b)|
  {
    LastLive(Listing(b), k).Some? ==> SameMeaning(b, k)
  }

  lemma {:induction false} FindAbsent(rs: seq<Ent>, name: seq<Byte>)
    requires forall i | 0 <= i < |rs| :: rs[i].name != name
    ensures Find(rs, name) == 0
  {
    if rs != [] {
      FindAbsent(rs[1..], name);
    }
  }

  /** Every name that is not found in `front` is found alike in `a` and `b`. */
  ghost predicate AllAlike(front: seq<Ent>, a: seq<Ent>, b: seq<Ent>) {
    forall other | Find(front, other) == 0 :: Find(a, other) == Find(b, other)
  }

  /** Names that occur in neither list are found in neither. */
  lemma {:induction false} AlikeEverywhere(front: seq<Ent>, a: seq<Ent>, b: seq<Ent>)
    ensures FoundAlike(a, front, a, b) && FoundAlike(b, front, a, b) <==> AllAlike(front, a, b)
  {
    hide Find;
    if FoundAlike(a, front, a, b) && FoundAlike(b, front, a, b) {
      forall other | Find(front, other) == 0
        ensures Find(a, other) == Find(b, other)
      {
        AlikeAt(front, a, b, other);
      }
    }
  }

  lemma {:induction false} AlikeAt(front: seq<Ent>, a: seq<Ent>, b: seq<Ent>, other: seq<Byte>)
    requires FoundAlike(a, front, a, b) && FoundAlike(b, front, a, b) && Find(front, other) == 0
    ensures Find(a, other) == Find(b, other)
  {
    hide Find;
    if i :| 0 <= i < |a| && a[i].name == other {
      assert Find(front, a[i].name) == 0;
    } else if i :| 0 <= i < |b| && b[i].name == other {
      assert Find(front, b[i].name) == 0;
    } else {
      FindAbsent(a, other);
      FindAbsent(b, other);
    }
  }

  lemma {:induction false} FindFree(rs: seq<Ent>, name: seq<Byte>)
    requires forall i | 0 <= i < |rs| :: rs[i].ino == 0
    ensures Find(rs, name) == 0
  {
    if rs != [] {
      FindFree(rs[1..], name);
    }
  }

  /** A lookup in terms of the records up to the last live one, the removed one and those after it. */
  lemma {:induction false} FindAround(rs: seq<Ent>, k: nat, j: nat, other: seq<Byte>)
    requires j < k < |rs| && rs[k].ino != 0 && forall i | j < i < k :: rs[i].ino == 0
    ensures Find(rs, other) == if Find(rs[..j + 1], other) != 0 then Find(rs[..j + 1], other)
      else if rs[k].name == other then rs[k].ino else Find(rs[k + 1..], other)
    ensures Find(rs[..k], other) == Find(rs[..j + 1], other)
  {
    var gap := rs[j + 1..k];
    assert rs[..k] == rs[..j + 1] + gap && rs == rs[..k] + ([rs[k]] + rs[k + 1..]);
    FindJoin(rs[..j + 1], gap, other);
    FindFree(gap, other);
    FindJoin(rs[..k], [rs[k]] + rs[k + 1..], other);
    FindHead(rs[k], rs[k + 1..], other);
  }

  /** A merged record is found under the same name. */
  lemma {:induction false} FindMerged(rs: seq<Ent>, j: nat, e: Ent, tail: seq<Ent>, other: seq<Byte>)
    requires j < |rs| && rs[j].ino != 0
    ensures Find(rs[..j] + [Merged(rs[j], e)] + tail, other)
      == if Find(rs[..j + 1], other) != 0 then Find(rs[..j + 1], other) else Find(tail, other)
  {
    var q := Merged(rs[j], e);
    assert rs[..j + 1] == rs[..j] + ([rs[j]] + []);
    assert rs[..j] + [q] + tail == rs[..j] + ([q] + tail);
    FindJoin(rs[..j], [rs[j]] + [], other);
    FindHead(rs[j], [], other);
    FindJoin(rs[..j], [q] + tail, other);
    FindHead(q, tail, other);
  }

  lemma {:induction false} FreedFind(rs: seq<Ent>, k: nat, other: seq<Byte>)
    requires OnlyEntry(rs, k) && LastLive(rs, k).None?
    ensures Find(RemoveRecs(rs, k), other) == if other == rs[k].name then 0 else Find(rs, other)
  {
    var tail, f := rs[k + 1..], Ent(0, rs[k].reclen, []);
    assert rs == rs[..k] + ([rs[k]] + tail);
    FindJoin(rs[..k], [rs[k]] + tail, other);
    FindHead(rs[k], tail, other);
    FindJoin(rs[..k], [f] + tail, other);
    FindHead(f, tail, other);
  }

  /** Exactly when the removal of the only record of a name does what it should: always when there is no
      live record before it in its block; otherwise exactly when the bytes at the end of the merged record
      mean what the following records mean. */
  lemma {:induction false} RemovalExact(b: seq<Byte>, k: nat)
    requires Tiled(b) && OnlyEntry(Listing(b), k)
    ensures RemovesOnly(b, RemoveBytes(b, k), Listing(b)[k].name) <==> SafeToRemove(b, k)
  {
    hide ReadDirent, Sum, LastLive, RemoveBytes, Records, MergeEnd, RemoveRecs;
    var rs := Listing(b);
    if LastLive(rs, k).None? {
      FreedBytes(b, k);
      forall other
        ensures Find(RemoveRecs(rs, k), other) == if other == rs[k].name then 0 else Find(rs, other)
      {
        FreedFind(rs, k, other);
      }
    } else {
      var j := LastLive(rs, k).value;
      MergedListing(b, k, j);
      SameBlock(b, k, j);
      if Tiled(RemoveBytes(b, k)) {
        MergedExact(b, k, j);
      }
    }
  }

  lemma {:induction false} MergedExact(b: seq<Byte>, k: nat, j: nat)
    requires Tiled(b) && OnlyEntry(Listing(b), k) && LastLive(Listing(b), k) == Some(j) && Tiled(RemoveBytes(b, k))
    requires forall i | j < i < k :: Listing(b)[i].ino == 0
    ensures RemovesOnly(b, RemoveBytes(b, k), Listing(b)[k].name) <==> SameMeaning(b, k)
  {
    hide ReadDirent, Sum, LastLive, RemoveBytes, Records, MergeEnd, Find, Merged;
    var rs, c, m := Listing(b), RemoveBytes(b, k), MergeEnd(b, k);
    MergedListing(b, k, j);
    var tail := Records(b, m, |b|).value;
    AlikeEverywhere(rs[..j + 1], tail, rs[k + 1..]);
    forall other
      ensures Find(Listing(c), other) == if Find(rs[..j + 1], other) != 0 then Find(rs[..j + 1], other) else Find(tail, other)
      ensures Find(rs, other) == if Find(rs[..j + 1], other) != 0 then Find(rs[..j + 1], other)
        else if rs[k].name == other then rs[k].ino else Find(rs[k + 1..], other)
      ensures other == rs[k].name ==> Find(rs[..j + 1], other) == 0 && Find(rs[k + 1..], other) == 0
    {
      FindMerged(rs, j, rs[k], tail, other);
      FindAround(rs, k, j, other);
    }
  }

  /** The record directly before is live, or no record before it in the block is: removal is safe. */
  lemma {:induction false} AdjacentSafe(b: seq<Byte>, k: nat)
    requires Tiled(b) && k < |Listing(b)| && Adjacent(Listing(b), k)
    ensures SafeToRemove(b, k)
  {
    hide ReadDirent, Sum, LastLive, MergeEnd, RemoveBytes, RemoveRecs, Records, Find;
    AdjacentBytes(b, k);
    RecordsFrom(b, 0, |b|, k + 1);
  }

  // ----- records that are not adjacent -----

  /** The free records in between decide where the merged record ends: by `gap` bytes short of the next
      record, so at or before the removed record exactly if the gap is at least as long as it. */
  lemma {:induction false} MergeEndAt(b: seq<Byte>, k: nat, j: nat)
    requires Tiled(b) && k < |Listing(b)| && LastLive(Listing(b), k) == Some(j)
    ensures var gap := Sum(Listing(b)[j + 1..k]);
      && MergeEnd(b, k) + gap == Offset(b, k + 1)
      && (MergeEnd(b, k) <= Offset(b, k) <==> gap >= Listing(b)[k].reclen)
      && (gap == 0 <==> j == k - 1)
  {
    hide ReadDirent, Sum, LastLive;
    var rs := Listing(b);
    RecordAt(b, k);
    SumNext(rs, j);
    assert rs[..k] == rs[..j + 1] + rs[j + 1..k];
    SumJoin(rs[..j + 1], rs[j + 1..k]);
    if j == k - 1 {
      SumNothing(rs[j + 1..k]);
      assert rs[j + 1..k][..0] == rs[j + 1..k];
    } else {
      RecordAt(b, j + 1);
      assert rs[j + 1..k] == [rs[j + 1]] + rs[j + 2..k];
      SumOne(rs[j + 1], rs[j + 2..k]);
    }
  }

  /** If the merged record ends at a record at or before the removed one, the directory stays tiled and
      the removed name is still found, although the removal reports success. */
  lemma {:induction false} NameSurvives(b: seq<Byte>, k: nat, j: nat, i: nat)
    requires Tiled(b) && OnlyEntry(Listing(b), k) && LastLive(Listing(b), k) == Some(j) && j < i <= k
    requires MergeEnd(b, k) == Offset(b, i)
    ensures var c := RemoveBytes(b, k);
      Tiled(c) && Find(Listing(c), Listing(b)[k].name) == Listing(b)[k].ino && !SafeToRemove(b, k)
  {
    hide ReadDirent, Sum, LastLive, RemoveBytes, Records, MergeEnd;
    var rs, name := Listing(b), Listing(b)[k].name;
    MergedListing(b, k, j);
    SameBlock(b, k, j);
    RecordsFrom(b, 0, |b|, i);
    assert Records(b, MergeEnd(b, k), |b|) == Some(rs[i..]);
    assert rs[i..] == rs[i..k] + ([rs[k]] + rs[k + 1..]);
    FindMerged(rs, j, rs[k], rs[i..], name);
    FindAround(rs, k, j, name);
    FindFree(rs[i..k], name);
    FindJoin(rs[i..k], [rs[k]] + rs[k + 1..], name);
    FindHead(rs[k], rs[k + 1..], name);
    RemovalExact(b, k);
  }

  /** If the merged record ends where the removed record's unused bytes are zero, as a freshly written
      record leaves them, the directory is no longer tiled. */
  lemma {:induction false} TilingBreaks(b: seq<Byte>, k: nat, j: nat)
    requires Tiled(b) && k < |Listing(b)| && LastLive(Listing(b), k) == Some(j)
    requires var m := MergeEnd(b, k); m + 8 <= |b| && b[m + 4] == 0 && b[m + 5] == 0
    ensures !Tiled(RemoveBytes(b, k)) && !SafeToRemove(b, k)
  {
    hide Sum, LastLive, RemoveBytes, MergeEnd;
    MergedListing(b, k, j);
    assert ReadDirent(b, MergeEnd(b, k)).None?;
  }
}
