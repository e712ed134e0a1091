/** The in-memory state of an open QCOW2 image beside its map, and the invariants every operation
    keeps: refcounts equal the number of reference paths, COPIED means a count of one, and whatever
    differs from the disk is marked dirty. */
module Qcow2State {
  import opened Scale
  import opened Ledger
  import opened Qcow2Map

  datatype State = State(m: Map, refs: seq<nat>, tags: seq<nat>, refDirty: seq<bool>,
                         tableDirty: bool, tableMoved: bool, hdrFirst: nat, hdrClusters: nat, diskL1: seq<Entry>)

  const META: nat := 1
  const DATA: nat := 2
  const L2: nat := 3

  /** Every refcount is the number of paths, plus the references still to be linked or dropped. */
  ghost predicate Counted(g: Geo, s: State, pend: multiset<nat>) {
    |s.refs| == |s.m.hosts| && forall n | 0 <= n < |s.refs| :: s.refs[n] == Expected(g, s.m, n) + pend[n]
  }

  predicate FlagOk(refs: seq<nat>, e: Entry) {
    e.off != 0 && e.off < |refs| ==> (e.copied <==> refs[e.off] == 1)
  }

  ghost predicate RowFlags(refs: seq<nat>, es: seq<Entry>) {
    forall j | 0 <= j < |es| :: FlagOk(refs, es[j])
  }

  ghost predicate Flags(m: Map, refs: seq<nat>) {
    && RowFlags(refs, m.l1)
    && forall i | 0 <= i < |m.l1| :: RowFlags(refs, Below(m.hosts, m.l1[i]))
  }

  ghost predicate TagOk(g: Geo, m: Map, tags: seq<nat>, n: nat)
    requires n < |tags|
  {
    && (Occ(m.l1, n) > 0 ==> tags[n] == L2)
    && (DataRefs(m.hosts, m.l1, n) > 0 ==> tags[n] == DATA)
  }

  ghost predicate Tagged(g: Geo, s: State) {
    |s.tags| == |s.m.hosts| && forall n | 0 < n < |s.tags| :: TagOk(g, s.m, s.tags, n)
  }

  /** The refcounts that block `i` of the refcount structure holds. */
  function Slice(g: Geo, refs: seq<nat>, i: nat): (s: seq<nat>)
    ensures |s| == PerBlock(g)
  {
    seq<nat>(PerBlock(g), j requires 0 <= j < PerBlock(g) => RefAt(refs, Times(PerBlock(g), i) + j))
  }

  function RefAt(refs: seq<nat>, n: nat): nat {
    if n < |refs| then refs[n] else 0
  }

  predicate BlockClean(g: Geo, s: State, i: nat)
    requires i < |s.m.refTable| == |s.refDirty|
  {
    var b := s.m.refTable[i];
    b != 0 && !s.refDirty[i] ==> b < |s.m.hosts| && s.m.hosts[b] == Counts(Slice(g, s.refs, i))
  }

  predicate ChunkClean(g: Geo, s: State, k: nat)
    requires k < s.m.refClusters && |s.m.refTable| == Times(g.per, s.m.refClusters)
  {
    s.m.refFirst + k < |s.m.hosts| && s.m.hosts[s.m.refFirst + k] == Pointers(Chunk(g, s.m, k))
  }

  function Chunk(g: Geo, m: Map, k: nat): seq<nat>
    requires k < m.refClusters && |m.refTable| == Times(g.per, m.refClusters)
  {
    TimesMonotone(g.per, k, m.refClusters);
    m.refTable[Times(g.per, k)..Times(g.per, k) + g.per]
  }

  /** What is not marked dirty is on disk. */
  ghost predicate Tracked(g: Geo, s: State)
    requires |s.m.refTable| == Times(g.per, s.m.refClusters)
  {
    && |s.refDirty| == |s.m.refTable|
    && (forall i | 0 <= i < |s.m.refTable| :: BlockClean(g, s, i))
    && (!s.tableDirty ==> forall k: nat | k < s.m.refClusters :: ChunkClean(g, s, k))
    && s.diskL1 == s.m.l1
    && (!s.tableMoved ==> s.hdrFirst == s.m.refFirst && s.hdrClusters == s.m.refClusters)
  }

  /** The invariant of an open image; `pend` holds the references that an operation has counted but not
      yet linked, or unlinked but not yet dropped. */
  ghost predicate Kept(g: Geo, s: State, pend: multiset<nat>) {
    Core(g, s, pend) && Flags(s.m, s.refs)
  }

  /** The invariant without the COPIED flags. */
  ghost predicate Core(g: Geo, s: State, pend: multiset<nat>) {
    MapOk(g, s.m) && Counted(g, s, pend) && Tagged(g, s) && Tracked(g, s)
  }

  /** Every host cluster below `limit` has a refcount block. */
  ghost predicate Covered(g: Geo, s: State, limit: nat)
    requires 0 < g.per
  {
    forall i: nat | Times(PerBlock(g), i) < limit :: i < |s.m.refTable| && s.m.refTable[i] != 0
  }

  // ----- marking -----

  /** The block of cluster `n` must be rewritten. */
  function Mark(g: Geo, dirty: seq<bool>, n: nat): (d: seq<bool>)
    requires 0 < g.per
    ensures |d| == |dirty|
  {
    var b := Quot(PerBlock(g), n);
    if b < |dirty| then dirty[b := true] else dirty
  }

  /** A changed refcount dirties its block and leaves the others clean. */
  lemma MarkTracks(g: Geo, s: State, n: nat, refs': seq<nat>, i: nat)
    requires 0 < g.per && i < |s.m.refTable| == |s.refDirty| && BlockClean(g, s, i)
    requires forall k: nat | k != n :: RefAt(refs', k) == RefAt(s.refs, k)
    ensures BlockClean(g, s.(refs := refs', refDirty := Mark(g, s.refDirty, n)), i)
  {
    var b := Quot(PerBlock(g), n);
    if i != b {
      SliceSame(g, s.refs, refs', n, i);
    }
  }

  lemma SliceSame(g: Geo, refs: seq<nat>, refs': seq<nat>, n: nat, i: nat)
    requires 0 < g.per && i != Quot(PerBlock(g), n) && forall k: nat | k != n :: RefAt(refs', k) == RefAt(refs, k)
    ensures Slice(g, refs', i) == Slice(g, refs, i)
  {
    hide RefAt;
    forall j | 0 <= j < PerBlock(g) ensures Slice(g, refs', i)[j] == Slice(g, refs, i)[j] {
      if Times(PerBlock(g), i) + j == n { QuotUnique(PerBlock(g), i, j); }
    }
  }

  // ----- appending a host cluster -----

  function Append(g: Geo, s: State, tag: nat): State
    requires 0 < g.per
  {
    s.(m := s.m.(hosts := s.m.hosts + [Plain]), refs := s.refs + [1], tags := s.tags + [tag],
       refDirty := Mark(g, s.refDirty, |s.refs|))
  }

  lemma BelowGrow(g: Geo, m: Map, hosts: seq<Cluster>, e: Entry)
    requires RootOk(g, m.hosts, e) && m.hosts <= hosts
    ensures Below(hosts, e) == Below(m.hosts, e) && RootOk(g, hosts, e)
  {
    if e.off != 0 {
      forall j | 0 <= j < |m.hosts[e.off].es| ensures EntryOk(g, hosts, m.hosts[e.off].es[j]) {
        assert EntryOk(g, m.hosts, m.hosts[e.off].es[j]);
      }
    }
  }

  lemma ExpectedGrow(g: Geo, m: Map, hosts: seq<Cluster>, n: nat)
    requires MapOk(g, m) && m.hosts <= hosts
    ensures Expected(g, m.(hosts := hosts), n) == Expected(g, m, n)
    ensures DataRefs(hosts, m.l1, n) == DataRefs(m.hosts, m.l1, n)
    ensures |m.hosts| <= n ==> Expected(g, m, n) == 0
  {
    hide DataRefs, Occ, OccN, Below, RootOk;
    forall i | 0 <= i < |m.l1| ensures Below(hosts, m.l1[i]) == Below(m.hosts, m.l1[i]) {
      assert RootOk(g, m.hosts, m.l1[i]);
      BelowGrow(g, m, hosts, m.l1[i]);
    }
    DataRefsFrame(m.hosts, hosts, m.l1, n);
    if |m.hosts| <= n {
      Unreached(g, m, n);
    }
  }

  /** Nothing points past the end of the file. */
  lemma Unreached(g: Geo, m: Map, n: nat)
    requires MapOk(g, m) && |m.hosts| <= n
    ensures MetaRefs(g, m, n) == 0 && Occ(m.l1, n) == 0 && DataRefs(m.hosts, m.l1, n) == 0
  {
    hide DataRefs, Occ, OccN, Below;
    forall i | 0 <= i < |m.l1| ensures m.l1[i].off != n {
      assert RootOk(g, m.hosts, m.l1[i]);
    }
    OccZero(m.l1, n);
    OccNZero(m.refTable, n);
    if DataRefs(m.hosts, m.l1, n) > 0 {
      var i, j := DataRefsFind(m.hosts, m.l1, n);
      DataInside(g, m, i, j);
    }
  }

  lemma DataInside(g: Geo, m: Map, i: nat, j: nat)
    requires MapOk(g, m) && i < |m.l1| && j < |Below(m.hosts, m.l1[i])|
    ensures EntryOk(g, m.hosts, Below(m.hosts, m.l1[i])[j])
    ensures Below(m.hosts, m.l1[i])[j].off < |m.hosts|
  {
    assert RootOk(g, m.hosts, m.l1[i]);
  }

  lemma {:induction false} OccNZero(ps: seq<nat>, n: nat)
    requires forall i | 0 <= i < |ps| :: ps[i] != n
    ensures OccN(ps, n) == 0
  {
    if |ps| > 0 { OccNZero(ps[..|ps| - 1], n); }
  }

  lemma MapGrow(g: Geo, m: Map, hosts: seq<Cluster>)
    requires MapOk(g, m) && m.hosts <= hosts
    ensures MapOk(g, m.(hosts := hosts))
  {
    hide DataRefs, Occ, OccN, Below, RootOk, Expected, Times;
    var m' := m.(hosts := hosts);
    forall i | 0 <= i < |m.l1| ensures RootOk(g, hosts, m.l1[i]) {
      assert RootOk(g, m.hosts, m.l1[i]);
      BelowGrow(g, m, hosts, m.l1[i]);
    }
    forall n | 0 < n < |hosts| ensures AloneAt(g, m', n) {
      ExpectedGrow(g, m, hosts, n);
      if |m.hosts| <= n { Unreached(g, m, n); } else { assert AloneAt(g, m, n); }
    }
  }

  lemma ViewGrow(g: Geo, m: Map, hosts: seq<Cluster>)
    requires MapOk(g, m) && m.hosts <= hosts
    ensures SameView(g, m, m.(hosts := hosts))
  {
    hide DataRefs, Occ, OccN, Times, Quot, MetaRefs;
    forall c: nat ensures SameCluster(g, m, m.(hosts := hosts), c) {
      EntryGrow(g, m, hosts, c);
    }
  }

  lemma EntryGrow(g: Geo, m: Map, hosts: seq<Cluster>, c: nat)
    requires MapOk(g, m) && m.hosts <= hosts
    ensures EntryOf(g, m.(hosts := hosts), c) == EntryOf(g, m, c)
    ensures EntryOf(g, m, c).off < |m.hosts|
  {
    hide DataRefs, Occ, OccN, Times, Quot, MetaRefs, Below;
    var i := Quot(g.per, c);
    if i < |m.l1| {
      assert RootOk(g, m.hosts, m.l1[i]);
      BelowGrow(g, m, hosts, m.l1[i]);
    }
    if EntryOf(g, m, c).off != 0 { EntryReached(g, m, c); }
  }

  lemma FlagsGrow(g: Geo, m: Map, refs: seq<nat>, hosts: seq<Cluster>, refs': seq<nat>)
    requires MapOk(g, m) && |refs| == |m.hosts| && Flags(m, refs) && m.hosts <= hosts && refs <= refs'
    ensures Flags(m.(hosts := hosts), refs')
  {
    hide DataRefs, Occ, OccN, Times, MetaRefs, Below;
    forall j | 0 <= j < |m.l1| ensures FlagOk(refs', m.l1[j]) {
      assert RootOk(g, m.hosts, m.l1[j]) && FlagOk(refs, m.l1[j]);
    }
    forall i | 0 <= i < |m.l1| ensures RowFlags(refs', Below(hosts, m.l1[i])) {
      assert RootOk(g, m.hosts, m.l1[i]);
      BelowGrow(g, m, hosts, m.l1[i]);
      var es := Below(m.hosts, m.l1[i]);
      assert RowFlags(refs, es);
      forall j | 0 <= j < |es| ensures FlagOk(refs', es[j]) {
        DataInside(g, m, i, j);
        assert FlagOk(refs, es[j]);
      }
    }
  }

  lemma AppendKeeps(g: Geo, s: State, tag: nat, pend: multiset<nat>)
    requires Kept(g, s, pend)
    requires forall n: nat | |s.refs| <= n :: pend[n] == 0
    ensures Kept(g, Append(g, s, tag), pend + multiset{|s.refs|})
    ensures SameView(g, s.m, Append(g, s, tag).m)
  {
    hide DataRefs, Occ, OccN, Times, MetaRefs, Below, Expected, TablesOk, NoAlias, Flags, SameView, Quot, Slice, Mark,
      BlockClean, ChunkClean;
    var s' := Append(g, s, tag);
    MapGrow(g, s.m, s'.m.hosts);
    ViewGrow(g, s.m, s'.m.hosts);
    FlagsGrow(g, s.m, s.refs, s'.m.hosts, s'.refs);
    forall n | 0 <= n < |s'.refs| ensures s'.refs[n] == Expected(g, s'.m, n) + (pend + multiset{|s.refs|})[n] {
      ExpectedGrow(g, s.m, s'.m.hosts, n);
    }
    forall n | 0 < n < |s'.tags| ensures TagOk(g, s'.m, s'.tags, n) {
      ExpectedGrow(g, s.m, s'.m.hosts, n);
      if n < |s.tags| { assert TagOk(g, s.m, s.tags, n); } else { Unreached(g, s.m, n); }
    }
    AppendTracks(g, s, tag);
  }

  lemma AppendTracks(g: Geo, s: State, tag: nat)
    requires 0 < g.per && TablesOk(g, s.m) && Tracked(g, s) && |s.refs| == |s.m.hosts|
    ensures TablesOk(g, Append(g, s, tag).m) ==> Tracked(g, Append(g, s, tag))
  {
    hide Times, Quot, Slice, Mark;
    var s' := Append(g, s, tag);
    forall i | 0 <= i < |s.m.refTable| ensures BlockClean(g, s', i) {
      assert BlockClean(g, s, i);
      MarkTracks(g, s, |s.refs|, s'.refs, i);
      assert BlockClean(g, s.(refs := s'.refs, refDirty := s'.refDirty), i);
    }
    forall k: nat | k < s.m.refClusters && !s.tableDirty ensures ChunkClean(g, s', k) {
      assert ChunkClean(g, s, k);
    }
  }

  // ----- refcount metadata -----

  /** A cluster that nothing references. */
  ghost predicate Spare(g: Geo, m: Map, n: nat) {
    0 < n < |m.hosts| && Expected(g, m, n) == 0
  }

  /** A new refcount block. */
  function LinkBlock(s: State, i: nat, b: nat): State
    requires i < |s.m.refTable| == |s.refDirty|
  {
    s.(m := s.m.(refTable := s.m.refTable[i := b]), refDirty := s.refDirty[i := true], tableDirty := true)
  }

  lemma LinkExpected(g: Geo, m: Map, i: nat, b: nat, n: nat)
    requires i < |m.refTable| && m.refTable[i] == 0 && 0 < n
    ensures Expected(g, m.(refTable := m.refTable[i := b]), n) == Expected(g, m, n) + if n == b then 1 else 0
    ensures MetaRefs(g, m.(refTable := m.refTable[i := b]), n) == MetaRefs(g, m, n) + if n == b then 1 else 0
  {
    OccNUpdate(m.refTable, i, b, n);
  }

  lemma LinkKeeps(g: Geo, s: State, i: nat, b: nat, pend: multiset<nat>)
    requires Kept(g, s, pend + multiset{b}) && Spare(g, s.m, b) && i < |s.m.refTable| && s.m.refTable[i] == 0
    ensures Kept(g, LinkBlock(s, i, b), pend) && SameView(g, s.m, LinkBlock(s, i, b).m)
  {
    hide DataRefs, Occ, OccN, Times, MetaRefs, Below, Quot, Slice, Mark, Expected, Chunk;
    var s' := LinkBlock(s, i, b);
    forall n | 0 < n < |s.m.hosts| ensures AloneAt(g, s'.m, n) {
      assert AloneAt(g, s.m, n);
      LinkExpected(g, s.m, i, b, n);
      SpareAlone(g, s.m, n);
    }
    forall n | 0 <= n < |s.refs| ensures s.refs[n] == Expected(g, s'.m, n) + pend[n] {
      if n > 0 { LinkExpected(g, s.m, i, b, n); } else { HeaderExpected(g, s.m, s'.m); }
    }
    forall n | 0 < n < |s.tags| ensures TagOk(g, s'.m, s.tags, n) {
      assert TagOk(g, s.m, s.tags, n);
    }
    forall k | 0 <= k < |s.m.refTable| ensures BlockClean(g, s', k) {
      assert BlockClean(g, s, k);
    }
    SameReads(g, s.m, s'.m);
  }

  lemma HeaderExpected(g: Geo, m: Map, m': Map)
    ensures Expected(g, m', 0) == Expected(g, m, 0) == 1
  {
  }

  lemma SpareAlone(g: Geo, m: Map, n: nat)
    requires 0 < n
    ensures Expected(g, m, n) == 0 ==> MetaRefs(g, m, n) == 0 && Occ(m.l1, n) == 0 && DataRefs(m.hosts, m.l1, n) == 0
  {
  }

  /** Reading depends only on the host clusters and the L1 table. */
  lemma SameReads(g: Geo, m: Map, m': Map)
    requires MapOk(g, m) && m'.hosts == m.hosts && m'.l1 == m.l1
    ensures SameView(g, m, m')
  {
    hide DataRefs, Occ, OccN, Times, Quot, MetaRefs, Below, RootOk;
    forall c: nat ensures SameCluster(g, m, m', c) {
      assert EntryOf(g, m', c) == EntryOf(g, m, c);
      if EntryOf(g, m, c).off != 0 { EntryReached(g, m, c); }
    }
  }

  /** The refcount table moves to `off` and grows to `clusters` clusters; the old table's references are
      still to be dropped. */
  function MoveTable(g: Geo, s: State, off: nat, clusters: nat, added: nat): State
    requires |s.m.refTable| == |s.refDirty|
  {
    s.(m := s.m.(refTable := s.m.refTable + seq(added, _ => 0), refFirst := off, refClusters := clusters),
       refDirty := s.refDirty + seq(added, _ => false), tableDirty := true, tableMoved := true)
  }

  lemma MoveExpected(g: Geo, s: State, off: nat, clusters: nat, added: nat, n: nat)
    requires |s.m.refTable| == |s.refDirty| && 0 < n
    ensures var m' := MoveTable(g, s, off, clusters, added).m;
      && Expected(g, m', n) + InRun(s.m.refFirst, s.m.refClusters, n) == Expected(g, s.m, n) + InRun(off, clusters, n)
      && MetaRefs(g, m', n) + InRun(s.m.refFirst, s.m.refClusters, n) == MetaRefs(g, s.m, n) + InRun(off, clusters, n)
  {
    OccNGrow(s.m.refTable, added, n);
  }

  lemma MoveCount(g: Geo, s: State, off: nat, clusters: nat, added: nat, pend: multiset<nat>, n: nat)
    requires |s.m.refTable| == |s.refDirty| && 0 < off && 0 < s.m.refFirst
    requires n < |s.refs| && s.refs[n] == Expected(g, s.m, n) + (pend + Run(off, clusters))[n]
    ensures s.refs[n] == Expected(g, MoveTable(g, s, off, clusters, added).m, n) + (pend + Run(s.m.refFirst, s.m.refClusters))[n]
  {
    hide Expected, MetaRefs;
    if n > 0 {
      MoveExpected(g, s, off, clusters, added, n);
    } else {
      HeaderExpected(g, s.m, MoveTable(g, s, off, clusters, added).m);
    }
  }

  lemma MoveAlone(g: Geo, s: State, off: nat, clusters: nat, added: nat, n: nat)
    requires |s.m.refTable| == |s.refDirty| && 0 < n && AloneAt(g, s.m, n)
    requires off <= n < off + clusters ==> Spare(g, s.m, n)
    ensures AloneAt(g, MoveTable(g, s, off, clusters, added).m, n)
  {
    hide DataRefs, Occ, OccN, Expected, MetaRefs;
    MoveExpected(g, s, off, clusters, added, n);
    SpareAlone(g, s.m, n);
  }

  lemma MoveKeeps(g: Geo, s: State, off: nat, clusters: nat, added: nat, pend: multiset<nat>)
    requires Kept(g, s, pend + Run(off, clusters)) && 0 < off && off + clusters <= |s.m.hosts|
    requires forall n | off <= n < off + clusters :: Spare(g, s.m, n)
    requires |s.m.refTable| + added == Times(g.per, clusters) && 0 < clusters
    ensures Kept(g, MoveTable(g, s, off, clusters, added), pend + Run(s.m.refFirst, s.m.refClusters))
    ensures SameView(g, s.m, MoveTable(g, s, off, clusters, added).m)
  {
    hide DataRefs, Occ, OccN, Times, MetaRefs, Below, Quot, Slice, Mark, Expected, Chunk, RootOk;
    var s' := MoveTable(g, s, off, clusters, added);
    forall n: nat | 0 < n < |s.m.hosts| ensures AloneAt(g, s'.m, n) {
      MoveAlone(g, s, off, clusters, added, n);
    }
    forall n: nat | 0 <= n < |s.refs| ensures s.refs[n] == Expected(g, s'.m, n) + (pend + Run(s.m.refFirst, s.m.refClusters))[n] {
      MoveCount(g, s, off, clusters, added, pend, n);
    }
    forall n | 0 < n < |s.tags| ensures TagOk(g, s'.m, s.tags, n) {
      assert TagOk(g, s.m, s.tags, n);
    }
    forall k | 0 <= k < |s'.m.refTable| ensures BlockClean(g, s', k) {
      if k < |s.m.refTable| { assert BlockClean(g, s, k); }
    }
    SameReads(g, s.m, s'.m);
  }

  // ----- dropping a reference -----

  function Drop(g: Geo, s: State, n: nat): State
    requires 0 < g.per && n < |s.refs| == |s.tags| && 0 < s.refs[n]
  {
    s.(refs := s.refs[n := s.refs[n] - 1], tags := if s.refs[n] == 1 then s.tags[n := 0] else s.tags,
       refDirty := Mark(g, s.refDirty, n))
  }

  /** All of the invariant except the flags of the entries that point to `n`. */
  ghost predicate KeptBut(g: Geo, s: State, pend: multiset<nat>, n: nat) {
    Core(g, s, pend) && FlagsBut(s.m, s.refs, n)
  }

  ghost predicate FlagsBut(m: Map, refs: seq<nat>, n: nat) {
    && (forall j | 0 <= j < |m.l1| :: m.l1[j].off != n ==> FlagOk(refs, m.l1[j]))
    && forall i | 0 <= i < |m.l1| :: RowFlagsBut(refs, Below(m.hosts, m.l1[i]), n)
  }

  ghost predicate RowFlagsBut(refs: seq<nat>, es: seq<Entry>, n: nat) {
    forall j | 0 <= j < |es| :: es[j].off != n ==> FlagOk(refs, es[j])
  }

  lemma DropKeeps(g: Geo, s: State, n: nat, pend: multiset<nat>)
    requires Kept(g, s, pend + multiset{n}) && 0 < n < |s.refs|
    ensures 0 < s.refs[n] && KeptBut(g, Drop(g, s, n), pend, n)
    ensures SameView(g, s.m, Drop(g, s, n).m)
  {
    hide DataRefs, Occ, OccN, Times, MetaRefs, Below, Quot, Slice, Mark, Expected, Chunk, RootOk, NoAlias, TablesOk;
    var s' := Drop(g, s, n);
    forall k | 0 <= k < |s.refs| ensures s'.refs[k] == Expected(g, s'.m, k) + pend[k] {
    }
    forall k | 0 < k < |s.tags| ensures TagOk(g, s'.m, s'.tags, k) {
      assert TagOk(g, s.m, s.tags, k);
      SpareAlone(g, s.m, k);
    }
    forall i | 0 <= i < |s.m.l1| ensures RowFlagsBut(s'.refs, Below(s.m.hosts, s.m.l1[i]), n) {
      assert RowFlags(s.refs, Below(s.m.hosts, s.m.l1[i]));
      RowDrop(s.refs, s'.refs, Below(s.m.hosts, s.m.l1[i]), n);
    }
    RowDrop(s.refs, s'.refs, s.m.l1, n);
    DropTracks(g, s, n);
    SameReads(g, s.m, s'.m);
  }

  lemma RowDrop(refs: seq<nat>, refs': seq<nat>, es: seq<Entry>, n: nat)
    requires RowFlags(refs, es) && |refs'| == |refs| && forall k | 0 <= k < |refs| && k != n :: refs'[k] == refs[k]
    ensures RowFlagsBut(refs', es, n)
  {
    forall j | 0 <= j < |es| && es[j].off != n ensures FlagOk(refs', es[j]) {
      assert FlagOk(refs, es[j]);
    }
  }

  lemma DropTracks(g: Geo, s: State, n: nat)
    requires 0 < g.per && TablesOk(g, s.m) && Tracked(g, s) && n < |s.refs| == |s.tags| && 0 < s.refs[n]
    ensures Tracked(g, Drop(g, s, n))
  {
    hide Times, Quot, Slice, Mark;
    var s' := Drop(g, s, n);
    forall i | 0 <= i < |s.m.refTable| ensures BlockClean(g, s', i) {
      assert BlockClean(g, s, i);
      MarkTracks(g, s, n, s'.refs, i);
      assert BlockClean(g, s.(refs := s'.refs, refDirty := s'.refDirty), i);
    }
    forall k: nat | k < s.m.refClusters && !s.tableDirty ensures ChunkClean(g, s', k) {
      assert ChunkClean(g, s, k);
    }
  }

  /** A dropped count other than one cannot leave a stale COPIED flag behind. */
  lemma DropDone(g: Geo, s: State, pend: multiset<nat>, n: nat)
    requires KeptBut(g, s, pend, n) && 0 < n < |s.refs| && s.refs[n] != 1
    requires RowOld(s.m.l1, n) && forall i | 0 <= i < |s.m.l1| :: RowOld(Below(s.m.hosts, s.m.l1[i]), n)
    ensures Kept(g, s, pend)
  {
    hide DataRefs, Occ, OccN, Times, MetaRefs, Below, Quot, Slice, Expected, Chunk, RootOk, NoAlias, TablesOk;
    forall i | 0 <= i < |s.m.l1| ensures RowFlags(s.refs, Below(s.m.hosts, s.m.l1[i])) {
      var es := Below(s.m.hosts, s.m.l1[i]);
      assert RowFlagsBut(s.refs, es, n) && RowOld(es, n);
    }
  }

  /** The entries for `n` have their flag clear. */
  ghost predicate RowOld(es: seq<Entry>, n: nat) {
    forall j | 0 <= j < |es| :: es[j].off == n ==> !es[j].copied
  }
}
