/** The writes that change an image: metadata blocks, new clusters, L1 and L2 entries, guest data. Each
    keeps the invariant and changes the guest's view only as intended. */
module Qcow2Steps {
  import opened Scale
  import opened Ledger
  import opened Qcow2Map
  import opened Qcow2State

  // ----- a cluster that no table reaches -----

  /** No L1 or L2 entry points to `n`. */
  ghost predicate Unmapped(m: Map, n: nat) {
    Occ(m.l1, n) == 0 && DataRefs(m.hosts, m.l1, n) == 0
  }

  lemma UnmappedEntry(m: Map, n: nat, i: nat, j: nat)
    requires Unmapped(m, n) && i < |m.l1|
    ensures m.l1[i].off != n
    ensures j < |Below(m.hosts, m.l1[i])| ==> Below(m.hosts, m.l1[i])[j].off != n
  {
    if m.l1[i].off == n {
      OccOne(m.l1, i, n);
    }
    if j < |Below(m.hosts, m.l1[i])| && Below(m.hosts, m.l1[i])[j].off == n {
      DataRefsOne(m.hosts, m.l1, i, j, n);
    }
  }

  lemma UnmappedRoot(g: Geo, m: Map, n: nat, c: Cluster, i: nat)
    requires MapOk(g, m) && Unmapped(m, n) && n < |m.hosts| && i < |m.l1|
    ensures Below(m.hosts[n := c], m.l1[i]) == Below(m.hosts, m.l1[i]) && RootOk(g, m.hosts[n := c], m.l1[i])
  {
    hide DataRefs, Occ;
    assert RootOk(g, m.hosts, m.l1[i]);
    UnmappedEntry(m, n, i, 0);
    if m.l1[i].off != 0 {
      var es := m.hosts[m.l1[i].off].es;
      forall j | 0 <= j < |es| ensures EntryOk(g, m.hosts[n := c], es[j]) {
        UnmappedEntry(m, n, i, j);
        assert EntryOk(g, m.hosts, es[j]);
      }
    }
  }

  lemma UnmappedExpected(g: Geo, m: Map, n: nat, c: Cluster, k: nat)
    requires MapOk(g, m) && Unmapped(m, n) && n < |m.hosts|
    ensures Expected(g, m.(hosts := m.hosts[n := c]), k) == Expected(g, m, k)
    ensures DataRefs(m.hosts[n := c], m.l1, k) == DataRefs(m.hosts, m.l1, k)
  {
    hide DataRefs, Occ, Below, OccN, RootOk;
    forall i | 0 <= i < |m.l1| ensures Below(m.hosts[n := c], m.l1[i]) == Below(m.hosts, m.l1[i]) {
      UnmappedRoot(g, m, n, c, i);
    }
    DataRefsFrame(m.hosts, m.hosts[n := c], m.l1, k);
  }

  /** Writing a cluster that no table reaches changes neither the map nor the guest. */
  lemma UnmappedWrite(g: Geo, m: Map, n: nat, c: Cluster)
    requires MapOk(g, m) && Unmapped(m, n) && n < |m.hosts|
    ensures MapOk(g, m.(hosts := m.hosts[n := c])) && SameView(g, m, m.(hosts := m.hosts[n := c]))
  {
    hide DataRefs, Occ, Below, OccN, RootOk, Times, Expected;
    var m' := m.(hosts := m.hosts[n := c]);
    forall i | 0 <= i < |m.l1| ensures RootOk(g, m'.hosts, m.l1[i]) {
      UnmappedRoot(g, m, n, c, i);
    }
    forall k | 0 < k < |m.hosts| ensures AloneAt(g, m', k) {
      assert AloneAt(g, m, k);
      UnmappedExpected(g, m, n, c, k);
    }
    forall k: nat ensures SameCluster(g, m, m', k) {
      UnmappedCluster(g, m, n, c, k);
    }
  }

  lemma UnmappedCluster(g: Geo, m: Map, n: nat, c: Cluster, k: nat)
    requires MapOk(g, m) && Unmapped(m, n) && n < |m.hosts|
    ensures SameCluster(g, m, m.(hosts := m.hosts[n := c]), k)
  {
    hide DataRefs, Occ, Below, OccN, RootOk, MetaRefs, Times, Expected, Quot;
    var i, j := Quot(g.per, k), k - Times(g.per, Quot(g.per, k));
    if i < |m.l1| {
      UnmappedRoot(g, m, n, c, i);
      UnmappedEntry(m, n, i, j);
    }
    if EntryOf(g, m, k).off != 0 { EntryReached(g, m, k); }
  }

  lemma UnmappedFlags(g: Geo, m: Map, n: nat, c: Cluster, refs: seq<nat>)
    requires MapOk(g, m) && Unmapped(m, n) && n < |m.hosts| && Flags(m, refs)
    ensures Flags(m.(hosts := m.hosts[n := c]), refs)
  {
    hide DataRefs, Occ, Below, OccN, RootOk, RowFlags;
    forall i | 0 <= i < |m.l1| ensures RowFlags(refs, Below(m.hosts[n := c], m.l1[i])) {
      UnmappedRoot(g, m, n, c, i);
    }
  }

  /** Map, counts and tags after such a write. */
  lemma UnmappedBooks(g: Geo, s: State, n: nat, c: Cluster, pend: multiset<nat>)
    requires MapOk(g, s.m) && Counted(g, s, pend) && Tagged(g, s) && Unmapped(s.m, n) && n < |s.m.hosts|
    ensures var s' := s.(m := s.m.(hosts := s.m.hosts[n := c]));
      && MapOk(g, s'.m) && Counted(g, s', pend) && Tagged(g, s') && SameView(g, s.m, s'.m)
  {
    hide DataRefs, Occ, Below, OccN, RootOk, RowFlags, MetaRefs, Expected, TablesOk, NoAlias, Unmapped, SameView, Flags;
    var s' := s.(m := s.m.(hosts := s.m.hosts[n := c]));
    UnmappedWrite(g, s.m, n, c);
    forall k: nat | 0 <= k < |s.refs| ensures s'.refs[k] == Expected(g, s'.m, k) + pend[k] {
      UnmappedExpected(g, s.m, n, c, k);
    }
    forall k: nat | 0 < k < |s.tags| ensures TagOk(g, s'.m, s'.tags, k) {
      UnmappedExpected(g, s.m, n, c, k);
      assert TagOk(g, s.m, s.tags, k);
    }
  }

  /** The contents of a newly appended cluster. */
  lemma NewContents(g: Geo, s: State, n: nat, c: Cluster, pend: multiset<nat>)
    requires Kept(g, s, pend) && Spare(g, s.m, n)
    ensures Kept(g, s.(m := s.m.(hosts := s.m.hosts[n := c])), pend)
    ensures SameView(g, s.m, s.m.(hosts := s.m.hosts[n := c])) && Spare(g, s.m.(hosts := s.m.hosts[n := c]), n)
  {
    hide DataRefs, Occ, Below, OccN, MetaRefs, Expected, NoAlias, SameView, Flags, Slice, Times, Quot;
    SpareAlone(g, s.m, n);
    UnmappedBooks(g, s, n, c, pend);
    UnmappedFlags(g, s.m, n, c, s.refs);
    UnmappedExpected(g, s.m, n, c, n);
    SpareMeta(g, s.m, n);
    var s' := s.(m := s.m.(hosts := s.m.hosts[n := c]));
    forall i | 0 <= i < |s.m.refTable| ensures BlockClean(g, s', i) {
      assert BlockClean(g, s, i) && s.m.refTable[i] != n;
    }
    forall k: nat | k < s.m.refClusters && !s.tableDirty ensures ChunkClean(g, s', k) {
      assert ChunkClean(g, s, k);
    }
  }

  /** A spare cluster is not metadata. */
  lemma SpareMeta(g: Geo, m: Map, n: nat)
    requires Spare(g, m, n)
    ensures !(m.refFirst <= n < m.refFirst + m.refClusters) && forall i | 0 <= i < |m.refTable| :: m.refTable[i] != n
  {
    forall i | 0 <= i < |m.refTable| ensures m.refTable[i] != n {
      if m.refTable[i] == n { OccNOne(m.refTable, i, n); }
    }
  }

  // ----- flushing -----

  function FlushBlock(g: Geo, s: State, i: nat): State
    requires i < |s.m.refTable| == |s.refDirty| && s.m.refTable[i] < |s.m.hosts|
  {
    s.(m := s.m.(hosts := s.m.hosts[s.m.refTable[i] := Counts(Slice(g, s.refs, i))]), refDirty := s.refDirty[i := false])
  }

  lemma MetaAlone(g: Geo, m: Map, i: nat)
    requires MapOk(g, m) && i < |m.refTable| && m.refTable[i] != 0
    ensures var b := m.refTable[i];
      && b < |m.hosts| && Unmapped(m, b) && !(m.refFirst <= b < m.refFirst + m.refClusters)
      && forall j | 0 <= j < |m.refTable| && j != i :: m.refTable[j] != b
  {
    hide DataRefs, Occ, OccN, Times, RootOk;
    var b := m.refTable[i];
    assert AloneAt(g, m, b);
    OccNOne(m.refTable, i, b);
    forall j | 0 <= j < |m.refTable| && j != i ensures m.refTable[j] != b {
      if m.refTable[j] == b {
        if i < j { OccNTwo(m.refTable, i, j, b); } else { OccNTwo(m.refTable, j, i, b); }
      }
    }
  }

  lemma FlushBlockKeeps(g: Geo, s: State, i: nat, pend: multiset<nat>)
    requires Core(g, s, pend) && i < |s.m.refTable| && s.m.refTable[i] != 0
    ensures s.m.refTable[i] < |s.m.hosts| && Core(g, FlushBlock(g, s, i), pend) && SameView(g, s.m, FlushBlock(g, s, i).m)
  {
    hide DataRefs, Occ, Below, OccN, MetaRefs, Expected, NoAlias, SameView, Flags, Slice, Times, Quot;
    var b := s.m.refTable[i];
    MetaAlone(g, s.m, i);
    UnmappedBooks(g, s, b, Counts(Slice(g, s.refs, i)), pend);
    var s' := FlushBlock(g, s, i);
    forall j | 0 <= j < |s.m.refTable| ensures BlockClean(g, s', j) {
      assert BlockClean(g, s, j);
    }
    forall k: nat | k < s.m.refClusters && !s.tableDirty ensures ChunkClean(g, s', k) {
      assert ChunkClean(g, s, k);
    }
  }

  function FlushChunk(g: Geo, s: State, k: nat): State
    requires k < s.m.refClusters && |s.m.refTable| == Times(g.per, s.m.refClusters) && s.m.refFirst + k < |s.m.hosts|
  {
    s.(m := s.m.(hosts := s.m.hosts[s.m.refFirst + k := Pointers(Chunk(g, s.m, k))]))
  }

  lemma TableAlone(g: Geo, m: Map, k: nat)
    requires MapOk(g, m) && k < m.refClusters
    ensures var b := m.refFirst + k;
      b < |m.hosts| && Unmapped(m, b) && forall j | 0 <= j < |m.refTable| :: m.refTable[j] != b
  {
    hide DataRefs, Occ, OccN, Times, RootOk;
    var b := m.refFirst + k;
    assert AloneAt(g, m, b);
    forall j | 0 <= j < |m.refTable| ensures m.refTable[j] != b {
      if m.refTable[j] == b { OccNOne(m.refTable, j, b); }
    }
  }

  lemma FlushChunkKeeps(g: Geo, s: State, k: nat, pend: multiset<nat>)
    requires Core(g, s, pend) && k < s.m.refClusters && s.tableDirty
    ensures s.m.refFirst + k < |s.m.hosts| && Core(g, FlushChunk(g, s, k), pend) && SameView(g, s.m, FlushChunk(g, s, k).m)
    ensures ChunkClean(g, FlushChunk(g, s, k), k)
    ensures forall j: nat | j < s.m.refClusters && j != k && ChunkClean(g, s, j) :: ChunkClean(g, FlushChunk(g, s, k), j)
  {
    hide DataRefs, Occ, Below, OccN, MetaRefs, Expected, NoAlias, SameView, Flags, Slice, Times, Quot;
    TableAlone(g, s.m, k);
    UnmappedBooks(g, s, s.m.refFirst + k, Pointers(Chunk(g, s.m, k)), pend);
    var s' := FlushChunk(g, s, k);
    forall j | 0 <= j < |s.m.refTable| ensures BlockClean(g, s', j) {
      assert BlockClean(g, s, j);
    }
  }
}
