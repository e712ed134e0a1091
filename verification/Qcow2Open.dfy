/** What the open-time validator demands of the file, and that a synced image meets it. */
module Qcow2Open {
  import opened Scale
  import opened Ledger
  import opened Qcow2Map
  import opened Qcow2State
  import opened Qcow2Steps
  import opened Qcow2Link
  import opened Qcow2

  /** The file: host clusters, the L1 table, and where the header puts the refcount table. */
  datatype Disk = Disk(hosts: seq<Cluster>, l1: seq<Entry>, first: nat, clusters: nat)

  // ----- reading the refcount structure -----

  function PointerAt(g: Geo, d: Disk, i: nat): nat
    requires 0 < g.per
  {
    var k := Quot(g.per, i);
    if d.first + k < |d.hosts| && d.hosts[d.first + k].Pointers? && |d.hosts[d.first + k].ps| == g.per
    then d.hosts[d.first + k].ps[i - Times(g.per, k)] else 0
  }

  function DiskTable(g: Geo, d: Disk): (t: seq<nat>)
    requires 0 < g.per
    ensures |t| == Times(g.per, d.clusters)
  {
    seq<nat>(Times(g.per, d.clusters), i requires 0 <= i < Times(g.per, d.clusters) => PointerAt(g, d, i))
  }

  /** The count of cluster `n` on disk; without a refcount block it is zero. */
  function CountAt(g: Geo, d: Disk, table: seq<nat>, n: nat): nat
    requires 0 < g.per
  {
    var i := Quot(PerBlock(g), n);
    var b := if i < |table| then table[i] else 0;
    if b != 0 && b < |d.hosts| && d.hosts[b].Counts? && |d.hosts[b].counts| == PerBlock(g)
    then d.hosts[b].counts[n - Times(PerBlock(g), i)] else 0
  }

  function DiskRefs(g: Geo, d: Disk): (r: seq<nat>)
    requires 0 < g.per
    ensures |r| == |d.hosts|
  {
    seq<nat>(|d.hosts|, n requires 0 <= n < |d.hosts| => CountAt(g, d, DiskTable(g, d), n))
  }

  ghost predicate TableReadable(g: Geo, d: Disk) {
    forall k: nat | k < d.clusters :: ChunkReadable(g, d, k)
  }

  predicate ChunkReadable(g: Geo, d: Disk, k: nat) {
    d.first + k < |d.hosts| && d.hosts[d.first + k].Pointers? && |d.hosts[d.first + k].ps| == g.per
  }

  /** A refcount block is whole, and counts nothing past the end of the file. */
  predicate BlockReadable(g: Geo, d: Disk, i: nat, b: nat) {
    b != 0 ==>
      && b < |d.hosts| && d.hosts[b].Counts? && |d.hosts[b].counts| == PerBlock(g)
      && forall j | 0 <= j < PerBlock(g) :: Times(PerBlock(g), i) + j >= |d.hosts| ==> d.hosts[b].counts[j] == 0
  }

  ghost predicate BlocksReadable(g: Geo, d: Disk)
    requires 0 < g.per
  {
    forall i | 0 <= i < |DiskTable(g, d)| :: BlockReadable(g, d, i, DiskTable(g, d)[i])
  }

  function DiskMap(g: Geo, d: Disk): Map
    requires 0 < g.per
  {
    Map(d.hosts, d.l1, DiskTable(g, d), d.first, d.clusters)
  }

  /** The image is consistent: every refcount is the number of paths, COPIED means a count of one, and
      metadata aliases nothing. */
  ghost predicate Accepted(g: Geo, d: Disk) {
    && GeoOk(g) && TableReadable(g, d) && BlocksReadable(g, d) && MapOk(g, DiskMap(g, d))
    && (forall n: nat | n < |d.hosts| :: CountExact(g, d, n))
    && Flags(DiskMap(g, d), DiskRefs(g, d))
  }

  ghost predicate CountExact(g: Geo, d: Disk, n: nat)
    requires 0 < g.per && n < |d.hosts|
  {
    DiskRefs(g, d)[n] == Expected(g, DiskMap(g, d), n)
  }

  // ----- a synced image -----

  function OnDisk(s: State): Disk {
    Disk(s.m.hosts, s.diskL1, s.hdrFirst, s.hdrClusters)
  }

  lemma CleanOf(g: Geo, s: State)
    requires Kept(g, s, multiset{}) && Flushed(s)
    ensures |s.m.refTable| == Times(g.per, s.m.refClusters) && |s.refDirty| == |s.m.refTable|
    ensures s.hdrFirst == s.m.refFirst && s.hdrClusters == s.m.refClusters && s.diskL1 == s.m.l1
    ensures forall k: nat | k < s.m.refClusters :: ChunkClean(g, s, k)
    ensures forall i | 0 <= i < |s.m.refTable| :: BlockClean(g, s, i) && !s.refDirty[i]
  {
  }

  /** The refcount table on disk is the one in memory. */
  lemma TableOnDisk(g: Geo, s: State)
    requires Kept(g, s, multiset{}) && Flushed(s)
    ensures 0 < g.per && DiskTable(g, OnDisk(s)) == s.m.refTable && TableReadable(g, OnDisk(s))
    ensures s.hdrFirst == s.m.refFirst && s.hdrClusters == s.m.refClusters && s.diskL1 == s.m.l1
  {
    hide DataRefs, Occ, OccN, Expected, Flags, NoAlias;
    KeptSizes(g, s, multiset{});
    CleanOf(g, s);
    var d := OnDisk(s);
    forall i: nat | i < |s.m.refTable| ensures PointerAt(g, d, i) == s.m.refTable[i] {
      PointerOnDisk(g, s, i);
    }
    forall k: nat | k < d.clusters ensures ChunkReadable(g, d, k) {
      assert ChunkClean(g, s, k);
      ChunkAt(g, s.m, k);
    }
  }

  lemma ChunkAt(g: Geo, m: Map, k: nat)
    requires k < m.refClusters && |m.refTable| == Times(g.per, m.refClusters)
    ensures |Chunk(g, m, k)| == g.per && Times(g.per, k) + g.per <= |m.refTable|
    ensures forall j: nat | j < g.per :: Chunk(g, m, k)[j] == m.refTable[Times(g.per, k) + j]
  {
    TimesMonotone(g.per, k, m.refClusters);
  }

  lemma PointerOnDisk(g: Geo, s: State, i: nat)
    requires Kept(g, s, multiset{}) && Flushed(s) && i < |s.m.refTable|
    ensures 0 < g.per && PointerAt(g, OnDisk(s), i) == s.m.refTable[i]
  {
    hide DataRefs, Occ, OccN, Expected, Flags, NoAlias;
    KeptSizes(g, s, multiset{});
    CleanOf(g, s);
    var k := Quot(g.per, i);
    QuotBelow(g.per, i, s.m.refClusters);
    assert ChunkClean(g, s, k);
    ChunkAt(g, s.m, k);
  }

  lemma SliceAt(g: Geo, refs: seq<nat>, i: nat, j: nat)
    requires j < PerBlock(g)
    ensures Slice(g, refs, i)[j] == RefAt(refs, Times(PerBlock(g), i) + j)
  {
  }

  /** The refcounts on disk are the ones in memory. */
  lemma RefOnDisk(g: Geo, s: State, n: nat)
    requires Ready(g, s, multiset{}) && Flushed(s) && n < |s.refs|
    ensures 0 < g.per && CountAt(g, OnDisk(s), s.m.refTable, n) == s.refs[n]
  {
    hide DataRefs, Occ, OccN, Expected, Flags, NoAlias, Times, Quot;
    ReadySizes(g, s, multiset{});
    KeptSizes(g, s, multiset{});
    CleanOf(g, s);
    var i := Quot(PerBlock(g), n);
    if i < |s.m.refTable| {
      assert BlockClean(g, s, i);
      SliceAt(g, s.refs, i, n - Times(PerBlock(g), i));
    }
    if s.refs[n] != 0 { assert BlockOf(g, s, n); }
  }

  lemma BlockOnDisk(g: Geo, s: State, i: nat)
    requires Ready(g, s, multiset{}) && Flushed(s) && i < |s.m.refTable|
    ensures BlockReadable(g, OnDisk(s), i, s.m.refTable[i])
  {
    hide DataRefs, Occ, OccN, Expected, Flags, NoAlias, Times, Quot;
    ReadySizes(g, s, multiset{});
    KeptSizes(g, s, multiset{});
    CleanOf(g, s);
    assert BlockClean(g, s, i);
    forall j: nat | j < PerBlock(g) && Times(PerBlock(g), i) + j >= |s.refs| ensures Slice(g, s.refs, i)[j] == 0 {
      SliceAt(g, s.refs, i, j);
    }
  }

  /** A synced image is accepted by the next open. */
  lemma SyncedAccepted(g: Geo, s: State)
    requires Ready(g, s, multiset{}) && Flushed(s)
    ensures Accepted(g, OnDisk(s))
  {
    hide DataRefs, Occ, OccN, Expected, Times, Quot, CountAt, PointerAt, NoAlias, TablesOk, Flags;
    ReadySizes(g, s, multiset{});
    TableOnDisk(g, s);
    var d := OnDisk(s);
    assert DiskMap(g, d) == s.m;
    forall n: nat | n < |s.refs| ensures DiskRefs(g, d)[n] == s.refs[n] {
      RefOnDisk(g, s, n);
    }
    assert DiskRefs(g, d) == s.refs;
    forall i | 0 <= i < |s.m.refTable| ensures BlockReadable(g, d, i, DiskTable(g, d)[i]) {
      BlockOnDisk(g, s, i);
    }
    CountsOf(g, s);
    FlagsOf(g, s, multiset{});
  }

  lemma CountsOf(g: Geo, s: State)
    requires Kept(g, s, multiset{})
    ensures |s.refs| == |s.m.hosts| && forall n: nat | n < |s.refs| :: s.refs[n] == Expected(g, s.m, n)
  {
    hide Expected;
    forall n: nat | n < |s.refs| ensures s.refs[n] == Expected(g, s.m, n) {
      assert s.refs[n] == Expected(g, s.m, n) + multiset{}[n];
    }
  }

  // ----- opening -----

  /** What the open builds in memory from an accepted file, given the validator's tags. */
  function Opened(g: Geo, d: Disk, tags: seq<nat>): State
    requires 0 < g.per
  {
    State(DiskMap(g, d), DiskRefs(g, d), tags, seq(|DiskTable(g, d)|, _ => false), false, false, d.first, d.clusters, d.l1)
  }

  ghost predicate TagsFit(g: Geo, d: Disk, tags: seq<nat>)
    requires 0 < g.per
  {
    |tags| == |d.hosts| && forall n: nat | 0 < n < |tags| :: TagOk(g, DiskMap(g, d), tags, n)
  }

  /** An accepted file opens into a usable image with nothing to flush. */
  lemma OpenedReady(g: Geo, d: Disk, tags: seq<nat>)
    requires Accepted(g, d) && TagsFit(g, d, tags)
    ensures Ready(g, Opened(g, d, tags), multiset{}) && Flushed(Opened(g, d, tags))
  {
    hide DataRefs, Occ, OccN, Expected, Times, Quot, NoAlias, Flags;
    var s := Opened(g, d, tags);
    forall n: nat | 0 <= n < |s.refs| ensures s.refs[n] == Expected(g, s.m, n) + multiset{}[n] {
      assert CountExact(g, d, n);
    }
    forall i | 0 <= i < |s.m.refTable| ensures BlockClean(g, s, i) {
      OpenedBlock(g, d, tags, i);
    }
    forall k: nat | k < s.m.refClusters ensures ChunkClean(g, s, k) {
      OpenedChunk(g, d, tags, k);
    }
    forall n: nat | n < |s.refs| && s.refs[n] != 0 ensures BlockOf(g, s, n) {
      assert DiskRefs(g, d)[n] == CountAt(g, d, DiskTable(g, d), n);
    }
  }

  lemma OpenedBlock(g: Geo, d: Disk, tags: seq<nat>, i: nat)
    requires Accepted(g, d) && i < |DiskTable(g, d)|
    ensures BlockClean(g, Opened(g, d, tags), i)
  {
    hide DataRefs, Occ, OccN, Expected, MapOk, Flags, DiskTable;
    var s := Opened(g, d, tags);
    var b := s.m.refTable[i];
    assert BlockReadable(g, d, i, b);
    if b != 0 {
      var rb := PerBlock(g);
      forall j: nat | j < rb ensures RefAt(s.refs, Times(rb, i) + j) == d.hosts[b].counts[j] {
        QuotUnique(rb, i, j);
        var n := Times(rb, i) + j;
        if n < |s.refs| { assert s.refs[n] == CountAt(g, d, s.m.refTable, n); }
      }
      assert Slice(g, s.refs, i) == d.hosts[b].counts;
    }
  }

  lemma OpenedChunk(g: Geo, d: Disk, tags: seq<nat>, k: nat)
    requires Accepted(g, d) && k < d.clusters
    ensures ChunkClean(g, Opened(g, d, tags), k)
  {
    hide DataRefs, Occ, OccN, Expected, MapOk, Flags;
    var s := Opened(g, d, tags);
    assert ChunkReadable(g, d, k);
    TimesMonotone(g.per, k, d.clusters);
    forall j: nat | j < g.per ensures Chunk(g, s.m, k)[j] == d.hosts[d.first + k].ps[j] {
      QuotUnique(g.per, k, j);
    }
    assert Chunk(g, s.m, k) == d.hosts[d.first + k].ps;
  }
}
