/** The writes that change the tables: pointing an L1 entry at a new L2 table, an L2 entry at a new data
    cluster, rewriting guest data in place, and setting COPIED flags. */
module Qcow2Link {
  import opened Scale
  import opened Ledger
  import opened Qcow2Map
  import opened Qcow2State
  import opened Qcow2Steps

  // ----- an L1 entry -----

  function Retarget(s: State, i: nat, off: nat): State
    requires i < |s.m.l1| == |s.diskL1|
  {
    var e := Entry(off, true, false);
    s.(m := s.m.(l1 := s.m.l1[i := e]), diskL1 := s.diskL1[i := e])
  }

  /** The table that replaces the one behind an L1 entry has the same entries. */
  ghost predicate CopiedRow(g: Geo, m: Map, i: nat, off: nat)
    requires i < |m.l1|
  {
    && off < |m.hosts| && m.hosts[off].Table?
    && if m.l1[i].off == 0 then m.hosts[off].es == seq(g.per, _ => NONE) else m.hosts[off].es == Below(m.hosts, m.l1[i])
  }

  function Pending(n: nat): multiset<nat> {
    if n == 0 then multiset{} else multiset{n}
  }

  lemma RowSame(g: Geo, m: Map, i: nat, off: nat, n: nat)
    requires MapOk(g, m) && i < |m.l1| && CopiedRow(g, m, i, off) && 0 < off && 0 < n
    ensures Occ(m.hosts[off].es, n) == Occ(Below(m.hosts, m.l1[i]), n) && TableOk(g, m.hosts, m.hosts[off].es)
  {
    assert RootOk(g, m.hosts, m.l1[i]);
    if m.l1[i].off == 0 {
      OccZero(m.hosts[off].es, n);
    }
  }

  lemma RetargetExpected(g: Geo, m: Map, i: nat, off: nat, n: nat)
    requires MapOk(g, m) && i < |m.l1| && CopiedRow(g, m, i, off) && 0 < off && 0 < n
    ensures var l1 := m.l1[i := Entry(off, true, false)];
      && DataRefs(m.hosts, l1, n) == DataRefs(m.hosts, m.l1, n)
      && Occ(l1, n) + (if m.l1[i].off == n then 1 else 0) == Occ(m.l1, n) + (if off == n then 1 else 0)
      && Expected(g, m.(l1 := l1), n) + Pending(m.l1[i].off)[n] == Expected(g, m, n) + Pending(off)[n]
  {
    hide DataRefs, Occ, RootOk, Times;
    var e := Entry(off, true, false);
    RowSame(g, m, i, off, n);
    DataRefsRetarget(m.hosts, m.l1, i, e, n);
    OccUpdate(m.l1, i, e, n);
  }

  lemma RetargetMap(g: Geo, m: Map, i: nat, off: nat)
    requires MapOk(g, m) && i < |m.l1| && CopiedRow(g, m, i, off) && Spare(g, m, off)
    ensures MapOk(g, m.(l1 := m.l1[i := Entry(off, true, false)]))
  {
    hide DataRefs, Occ, OccN, Times, MetaRefs, Expected;
    var m' := m.(l1 := m.l1[i := Entry(off, true, false)]);
    RowSame(g, m, i, off, off);
    forall k | 0 <= k < |m.l1| ensures RootOk(g, m.hosts, m'.l1[k]) {
      assert RootOk(g, m.hosts, m.l1[k]);
    }
    forall n: nat | 0 < n < |m.hosts| ensures AloneAt(g, m', n) {
      assert AloneAt(g, m, n);
      RetargetExpected(g, m, i, off, n);
      SpareAlone(g, m, n);
      assert MetaRefs(g, m', n) == MetaRefs(g, m, n) by { SameMeta(g, m, m', n); }
    }
  }

  lemma SameMeta(g: Geo, m: Map, m': Map, n: nat)
    requires m'.refTable == m.refTable && m'.refFirst == m.refFirst && m'.refClusters == m.refClusters
    ensures MetaRefs(g, m', n) == MetaRefs(g, m, n)
  {
  }

  lemma RetargetView(g: Geo, m: Map, i: nat, off: nat, c: nat)
    requires MapOk(g, m) && i < |m.l1| && CopiedRow(g, m, i, off) && 0 < off
    ensures SameCluster(g, m, m.(l1 := m.l1[i := Entry(off, true, false)]), c)
  {
    hide DataRefs, Occ, OccN, Times, MetaRefs, Expected, Quot;
    if EntryOf(g, m, c).off != 0 { EntryReached(g, m, c); }
    assert RootOk(g, m.hosts, m.l1[i]);
  }

  lemma RetargetFlags(g: Geo, m: Map, refs: seq<nat>, i: nat, off: nat)
    requires MapOk(g, m) && i < |m.l1| && CopiedRow(g, m, i, off) && 0 < off < |refs| && refs[off] == 1 && Flags(m, refs)
    ensures Flags(m.(l1 := m.l1[i := Entry(off, true, false)]), refs)
  {
    hide DataRefs, Occ, OccN, Times, MetaRefs, Expected;
    var m' := m.(l1 := m.l1[i := Entry(off, true, false)]);
    forall k | 0 <= k < |m.l1| ensures FlagOk(refs, m'.l1[k]) {
      assert FlagOk(refs, m.l1[k]);
    }
    forall k | 0 <= k < |m.l1| ensures RowFlags(refs, Below(m.hosts, m'.l1[k])) {
      assert RowFlags(refs, Below(m.hosts, m.l1[k]));
    }
  }

  /** A new table with the same entries takes the place of the old one: the guest sees no change, and
      the reference to the old table is still to be dropped. */
  lemma RetargetKeeps(g: Geo, s: State, i: nat, off: nat, pend: multiset<nat>)
    requires Kept(g, s, pend + multiset{off}) && i < |s.m.l1| && CopiedRow(g, s.m, i, off) && Spare(g, s.m, off)
    requires off < |s.refs| && s.refs[off] == 1 && s.tags[off] == L2
    ensures Kept(g, Retarget(s, i, off), pend + Pending(s.m.l1[i].off)) && SameView(g, s.m, Retarget(s, i, off).m)
  {
    hide DataRefs, Occ, OccN, Times, MetaRefs, Expected, Below, NoAlias, Flags, CopiedRow, Slice, Quot, RootOk;
    var s' := Retarget(s, i, off);
    RetargetMap(g, s.m, i, off);
    RetargetFlags(g, s.m, s.refs, i, off);
    forall n: nat | 0 <= n < |s.refs| ensures s.refs[n] == Expected(g, s'.m, n) + (pend + Pending(s.m.l1[i].off))[n] {
      if n > 0 { RetargetExpected(g, s.m, i, off, n); } else { HeaderExpected(g, s.m, s'.m); }
    }
    forall n: nat | 0 < n < |s.tags| ensures TagOk(g, s'.m, s.tags, n) {
      assert TagOk(g, s.m, s.tags, n);
      RetargetExpected(g, s.m, i, off, n);
      SpareAlone(g, s.m, n);
    }
    forall k | 0 <= k < |s.m.refTable| ensures BlockClean(g, s', k) {
      assert BlockClean(g, s, k);
    }
    forall k: nat | k < s.m.refClusters && !s.tableDirty ensures ChunkClean(g, s', k) {
      assert ChunkClean(g, s, k);
    }
    forall c: nat ensures SameCluster(g, s.m, s'.m, c) {
      RetargetView(g, s.m, i, off, c);
    }
  }

  // ----- an L2 entry -----

  /** The L2 table behind L1 entry `i` with entry `j` pointing to `off`. */
  function WithEntry(m: Map, i: nat, j: nat, e: Entry): Map
    requires i < |m.l1| && m.l1[i].off < |m.hosts| && m.hosts[m.l1[i].off].Table? && j < |m.hosts[m.l1[i].off].es|
  {
    var t := m.l1[i].off;
    m.(hosts := m.hosts[t := Table(m.hosts[t].es[j := e])])
  }

  function SetEntry(s: State, i: nat, j: nat, e: Entry): State
    requires i < |s.m.l1| && s.m.l1[i].off < |s.m.hosts| && s.m.hosts[s.m.l1[i].off].Table?
    requires j < |s.m.hosts[s.m.l1[i].off].es|
  {
    s.(m := WithEntry(s.m, i, j, e))
  }

  /** An L2 table that only L1 entry `i` uses. */
  ghost predicate SoleTable(g: Geo, m: Map, i: nat, j: nat) {
    && i < |m.l1| && 0 < m.l1[i].off < |m.hosts| && m.hosts[m.l1[i].off].Table? && j < |m.hosts[m.l1[i].off].es|
    && forall k | 0 <= k < |m.l1| && k != i :: m.l1[k].off != m.l1[i].off
  }

  /** A refcount of one with nothing pending means a single path. */
  lemma SolePath(g: Geo, s: State, i: nat, pend: multiset<nat>)
    requires Kept(g, s, pend) && i < |s.m.l1| && s.m.l1[i].off != 0 && s.m.l1[i].off < |s.refs| && s.refs[s.m.l1[i].off] == 1
    ensures SoleTable(g, s.m, i, 0) || |s.m.hosts[s.m.l1[i].off].es| == 0
    ensures forall k | 0 <= k < |s.m.l1| && k != i :: s.m.l1[k].off != s.m.l1[i].off
    ensures DataRefs(s.m.hosts, s.m.l1, s.m.l1[i].off) == 0 && MetaRefs(g, s.m, s.m.l1[i].off) == 0
  {
    hide DataRefs, Occ, OccN, Times, MetaRefs, Flags, Tracked;
    var t := s.m.l1[i].off;
    assert RootOk(g, s.m.hosts, s.m.l1[i]);
    OccOne(s.m.l1, i, t);
    assert s.refs[t] == Expected(g, s.m, t) + pend[t];
    forall k | 0 <= k < |s.m.l1| && k != i ensures s.m.l1[k].off != t {
      if s.m.l1[k].off == t {
        if k < i { OccTwo(s.m.l1, k, i, t); } else { OccTwo(s.m.l1, i, k, t); }
      }
    }
  }

  lemma EntryBelow(m: Map, i: nat, j: nat, e: Entry, k: nat)
    requires i < |m.l1| && 0 < m.l1[i].off < |m.hosts| && m.hosts[m.l1[i].off].Table? && j < |m.hosts[m.l1[i].off].es|
    requires k < |m.l1| && (k != i ==> m.l1[k].off != m.l1[i].off)
    ensures Below(WithEntry(m, i, j, e).hosts, m.l1[k]) == if k == i then Below(m.hosts, m.l1[i])[j := e] else Below(m.hosts, m.l1[k])
    ensures Below(m.hosts, m.l1[i]) == m.hosts[m.l1[i].off].es
  {
  }

  lemma EntryExpected(g: Geo, m: Map, i: nat, j: nat, e: Entry, n: nat)
    requires SoleTable(g, m, i, j) && 0 < n
    ensures var m' := WithEntry(m, i, j, e); var was := m.hosts[m.l1[i].off].es[j].off;
      && DataRefs(m'.hosts, m'.l1, n) + Pending(was)[n] == DataRefs(m.hosts, m.l1, n) + Pending(e.off)[n]
      && Expected(g, m', n) + Pending(was)[n] == Expected(g, m, n) + Pending(e.off)[n]
      && MetaRefs(g, m', n) == MetaRefs(g, m, n)
  {
    hide DataRefs, Occ, OccN, Below;
    var m' := WithEntry(m, i, j, e);
    EntryBelow(m, i, j, e, i);
    forall k | 0 <= k < |m.l1| && k != i ensures Below(m'.hosts, m.l1[k]) == Below(m.hosts, m.l1[k]) {
      EntryBelow(m, i, j, e, k);
    }
    DataRefsEdit(m.hosts, m'.hosts, m.l1, i, n);
    OccUpdate(m.hosts[m.l1[i].off].es, j, e, n);
  }

  lemma EntryRoots(g: Geo, m: Map, i: nat, j: nat, e: Entry, k: nat)
    requires MapOk(g, m) && SoleTable(g, m, i, j) && EntryOk(g, m.hosts, e) && e.off != m.l1[i].off && k < |m.l1|
    ensures RootOk(g, WithEntry(m, i, j, e).hosts, m.l1[k])
  {
    var t := m.l1[i].off;
    var m' := WithEntry(m, i, j, e);
    assert RootOk(g, m.hosts, m.l1[k]);
    if m.l1[k].off != 0 {
      var es := m'.hosts[m.l1[k].off].es;
      forall x | 0 <= x < |es| ensures EntryOk(g, m'.hosts, es[x]) {
        assert es[x] == e || EntryOk(g, m.hosts, es[x]);
      }
    }
  }

  lemma EntryMap(g: Geo, m: Map, i: nat, j: nat, e: Entry)
    requires MapOk(g, m) && SoleTable(g, m, i, j) && EntryOk(g, m.hosts, e)
    requires e.off == 0 || Spare(g, m, e.off) || e.off == m.hosts[m.l1[i].off].es[j].off
    ensures MapOk(g, WithEntry(m, i, j, e))
  {
    hide DataRefs, Occ, OccN, Times, MetaRefs, Expected, RootOk;
    var m' := WithEntry(m, i, j, e);
    forall k | 0 <= k < |m.l1| ensures RootOk(g, m'.hosts, m.l1[k]) {
      EntryRoots(g, m, i, j, e, k);
    }
    forall n: nat | 0 < n < |m.hosts| ensures AloneAt(g, m', n) {
      EntryAlone(g, m, i, j, e, n);
    }
  }

  lemma EntryAlone(g: Geo, m: Map, i: nat, j: nat, e: Entry, n: nat)
    requires MapOk(g, m) && SoleTable(g, m, i, j) && 0 < n < |m.hosts|
    requires e.off == 0 || Spare(g, m, e.off) || e.off == m.hosts[m.l1[i].off].es[j].off
    ensures AloneAt(g, WithEntry(m, i, j, e), n)
  {
    hide DataRefs, Occ, OccN, Times, MetaRefs, Expected, RootOk;
    assert AloneAt(g, m, n);
    EntryExpected(g, m, i, j, e, n);
    SpareAlone(g, m, n);
  }

  /** Only the guest cluster of the entry is read through the new pointer. */
  lemma EntryView(g: Geo, m: Map, i: nat, j: nat, e: Entry, c: nat)
    requires MapOk(g, m) && SoleTable(g, m, i, j)
    ensures var m' := WithEntry(m, i, j, e);
      EntryOf(g, m', c) == if c == Times(g.per, i) + j then e else EntryOf(g, m, c)
    ensures EntryOf(g, m, Times(g.per, i) + j) == m.hosts[m.l1[i].off].es[j]
  {
    hide DataRefs, Occ, OccN, Times, MetaRefs, Expected, Quot, Below, RootOk;
    var q := Quot(g.per, c);
    TableNotMeta(g, m, i);
    QuotUnique(g.per, i, j);
    EntryBelow(m, i, j, e, i);
    if q < |m.l1| { EntryBelow(m, i, j, e, q); }
  }

  lemma EntryFlags(g: Geo, m: Map, refs: seq<nat>, i: nat, j: nat, e: Entry)
    requires MapOk(g, m) && SoleTable(g, m, i, j) && Flags(m, refs) && FlagOk(refs, e)
    ensures Flags(WithEntry(m, i, j, e), refs)
  {
    hide DataRefs, Occ, OccN, Times, MetaRefs, Expected, Below;
    var m' := WithEntry(m, i, j, e);
    forall k | 0 <= k < |m.l1| ensures RowFlags(refs, Below(m'.hosts, m.l1[k])) {
      EntryBelow(m, i, j, e, k);
      assert RowFlags(refs, Below(m.hosts, m.l1[k]));
    }
  }

  /** A table that is not metadata can be edited without touching what is on disk for the refcounts. */
  lemma EntryTracks(g: Geo, s: State, i: nat, j: nat, e: Entry)
    requires MapOk(g, s.m) && Tracked(g, s) && SoleTable(g, s.m, i, j) && MetaRefs(g, s.m, s.m.l1[i].off) == 0
    ensures Tracked(g, SetEntry(s, i, j, e))
  {
    hide DataRefs, Occ, Times, Quot, Slice, RootOk;
    var s' := SetEntry(s, i, j, e);
    var t := s.m.l1[i].off;
    forall k | 0 <= k < |s.m.refTable| ensures BlockClean(g, s', k) {
      assert BlockClean(g, s, k);
      if s.m.refTable[k] == t { OccNOne(s.m.refTable, k, t); }
    }
    forall k: nat | k < s.m.refClusters && !s.tableDirty ensures ChunkClean(g, s', k) {
      assert ChunkClean(g, s, k);
    }
  }

  /** A new data cluster takes the place of the old mapping of one guest cluster. */
  lemma SetEntryKeeps(g: Geo, s: State, i: nat, j: nat, off: nat, pend: multiset<nat>)
    requires Kept(g, s, pend + multiset{off}) && SoleTable(g, s.m, i, j) && MetaRefs(g, s.m, s.m.l1[i].off) == 0
    requires Spare(g, s.m, off) && EntryOk(g, s.m.hosts, Entry(off, true, false))
    requires off < |s.refs| && s.refs[off] == 1 && s.tags[off] == DATA
    ensures Kept(g, SetEntry(s, i, j, Entry(off, true, false)), pend + Pending(s.m.hosts[s.m.l1[i].off].es[j].off))
  {
    hide DataRefs, Occ, OccN, Times, MetaRefs, Expected, Below, NoAlias, Flags, Slice, Quot, RootOk, TablesOk, Tracked;
    var e := Entry(off, true, false);
    var s' := SetEntry(s, i, j, e);
    var was := s.m.hosts[s.m.l1[i].off].es[j].off;
    EntryMap(g, s.m, i, j, e);
    EntryFlags(g, s.m, s.refs, i, j, e);
    EntryTracks(g, s, i, j, e);
    forall n: nat | 0 <= n < |s.refs| ensures s.refs[n] == Expected(g, s'.m, n) + (pend + Pending(was))[n] {
      if n > 0 { EntryExpected(g, s.m, i, j, e, n); } else { HeaderExpected(g, s.m, s'.m); }
    }
    forall n: nat | 0 < n < |s.tags| ensures TagOk(g, s'.m, s.tags, n) {
      assert TagOk(g, s.m, s.tags, n);
      EntryExpected(g, s.m, i, j, e, n);
      SpareAlone(g, s.m, n);
    }
  }

  // ----- guest data in place -----

  function PutData(s: State, n: nat, bytes: seq<Byte>): State
    requires n < |s.m.hosts|
  {
    s.(m := s.m.(hosts := s.m.hosts[n := Data(bytes)]))
  }

  lemma DataRoots(g: Geo, m: Map, n: nat, bytes: seq<Byte>, k: nat)
    requires MapOk(g, m) && n < |m.hosts| && m.hosts[n].Data? && |bytes| == ClusterBytes(g) && k < |m.l1|
    ensures RootOk(g, m.hosts[n := Data(bytes)], m.l1[k]) && Below(m.hosts[n := Data(bytes)], m.l1[k]) == Below(m.hosts, m.l1[k])
  {
    assert RootOk(g, m.hosts, m.l1[k]);
    if m.l1[k].off != 0 {
      var es := m.hosts[m.l1[k].off].es;
      forall x | 0 <= x < |es| ensures EntryOk(g, m.hosts[n := Data(bytes)], es[x]) {
        assert EntryOk(g, m.hosts, es[x]);
      }
    }
  }

  lemma DataExpected(g: Geo, m: Map, n: nat, bytes: seq<Byte>, k: nat)
    requires MapOk(g, m) && n < |m.hosts| && m.hosts[n].Data? && |bytes| == ClusterBytes(g)
    ensures Expected(g, m.(hosts := m.hosts[n := Data(bytes)]), k) == Expected(g, m, k)
    ensures DataRefs(m.hosts[n := Data(bytes)], m.l1, k) == DataRefs(m.hosts, m.l1, k)
    ensures MetaRefs(g, m.(hosts := m.hosts[n := Data(bytes)]), k) == MetaRefs(g, m, k)
  {
    hide DataRefs, Occ, OccN, Below, RootOk;
    forall i | 0 <= i < |m.l1| ensures Below(m.hosts[n := Data(bytes)], m.l1[i]) == Below(m.hosts, m.l1[i]) {
      DataRoots(g, m, n, bytes, i);
    }
    DataRefsFrame(m.hosts, m.hosts[n := Data(bytes)], m.l1, k);
  }

  lemma DataMap(g: Geo, m: Map, n: nat, bytes: seq<Byte>)
    requires MapOk(g, m) && n < |m.hosts| && m.hosts[n].Data? && |bytes| == ClusterBytes(g)
    ensures MapOk(g, m.(hosts := m.hosts[n := Data(bytes)]))
  {
    hide DataRefs, Occ, OccN, Below, RootOk, MetaRefs, Expected, Times;
    var m' := m.(hosts := m.hosts[n := Data(bytes)]);
    forall k | 0 <= k < |m.l1| ensures RootOk(g, m'.hosts, m.l1[k]) {
      DataRoots(g, m, n, bytes, k);
    }
    forall k: nat | 0 < k < |m.hosts| ensures AloneAt(g, m', k) {
      assert AloneAt(g, m, k);
      DataExpected(g, m, n, bytes, k);
    }
  }

  /** Rewriting a data cluster changes only what is read through it. */
  lemma DataView(g: Geo, m: Map, n: nat, bytes: seq<Byte>, c: nat)
    requires MapOk(g, m) && n < |m.hosts| && m.hosts[n].Data? && |bytes| == ClusterBytes(g)
    ensures EntryOf(g, m.(hosts := m.hosts[n := Data(bytes)]), c) == EntryOf(g, m, c)
  {
    hide DataRefs, Occ, OccN, Below, RootOk, MetaRefs, Expected, Times, Quot;
    var q := Quot(g.per, c);
    if q < |m.l1| { DataRoots(g, m, n, bytes, q); }
  }

  lemma PutDataKeeps(g: Geo, s: State, n: nat, bytes: seq<Byte>, pend: multiset<nat>)
    requires Kept(g, s, pend) && n < |s.m.hosts| && s.m.hosts[n].Data? && |bytes| == ClusterBytes(g) && MetaRefs(g, s.m, n) == 0
    ensures Kept(g, PutData(s, n, bytes), pend)
  {
    hide DataRefs, Occ, OccN, Times, MetaRefs, Expected, Below, NoAlias, Slice, Quot, RootOk, RowFlags;
    var s' := PutData(s, n, bytes);
    DataMap(g, s.m, n, bytes);
    forall k: nat | 0 <= k < |s.refs| ensures s.refs[k] == Expected(g, s'.m, k) + pend[k] {
      DataExpected(g, s.m, n, bytes, k);
    }
    forall k: nat | 0 < k < |s.tags| ensures TagOk(g, s'.m, s.tags, k) {
      assert TagOk(g, s.m, s.tags, k);
      DataExpected(g, s.m, n, bytes, k);
    }
    forall i | 0 <= i < |s.m.l1| ensures RowFlags(s.refs, Below(s'.m.hosts, s.m.l1[i])) {
      DataRoots(g, s.m, n, bytes, i);
      assert RowFlags(s.refs, Below(s.m.hosts, s.m.l1[i]));
    }
    DataTracks(g, s, n, bytes);
  }

  lemma DataTracks(g: Geo, s: State, n: nat, bytes: seq<Byte>)
    requires MapOk(g, s.m) && Tracked(g, s) && n < |s.m.hosts| && MetaRefs(g, s.m, n) == 0
    ensures Tracked(g, PutData(s, n, bytes))
  {
    hide DataRefs, Occ, Times, Quot, Slice, RootOk;
    var s' := PutData(s, n, bytes);
    forall k | 0 <= k < |s.m.refTable| ensures BlockClean(g, s', k) {
      assert BlockClean(g, s, k);
      if s.m.refTable[k] == n { OccNOne(s.m.refTable, k, n); }
    }
    forall k: nat | k < s.m.refClusters && !s.tableDirty ensures ChunkClean(g, s', k) {
      assert ChunkClean(g, s, k);
    }
  }

  /** A data cluster with one reference is read by one guest cluster only. */
  lemma SoleReader(g: Geo, s: State, c: nat, d: nat, pend: multiset<nat>)
    requires Kept(g, s, pend) && EntryOf(g, s.m, c).off != 0 && EntryOf(g, s.m, d).off == EntryOf(g, s.m, c).off
    requires var n := EntryOf(g, s.m, c).off; n < |s.refs| && s.refs[n] == 1
    ensures c == d
  {
    hide DataRefs, Occ, OccN, Times, MetaRefs, Below, TablesOk, NoAlias, Flags, Tracked, Quot, EntryOf;
    var n := EntryOf(g, s.m, c).off;
    EntryReached(g, s.m, c);
    EntryReached(g, s.m, d);
    assert s.refs[n] == Expected(g, s.m, n) + pend[n];
    var i, j := Quot(g.per, c), c - Times(g.per, Quot(g.per, c));
    var i', j' := Quot(g.per, d), d - Times(g.per, Quot(g.per, d));
    if i < i' || (i == i' && j < j') {
      DataRefsTwo(s.m.hosts, s.m.l1, i, j, i', j', n);
    } else if i' < i || (i == i' && j' < j) {
      DataRefsTwo(s.m.hosts, s.m.l1, i', j', i, j, n);
    }
  }

  lemma DataNotMeta(g: Geo, m: Map, c: nat)
    requires MapOk(g, m) && EntryOf(g, m, c).off != 0
    ensures var n := EntryOf(g, m, c).off; n < |m.hosts| && MetaRefs(g, m, n) == 0 && m.hosts[n].Data? && |m.hosts[n].bytes| == ClusterBytes(g)
  {
    hide DataRefs, Occ, OccN, Times, MetaRefs, Below, TablesOk, Quot, EntryOf;
    EntryReached(g, m, c);
    assert AloneAt(g, m, EntryOf(g, m, c).off);
  }

  // ----- COPIED flags -----

  /** The same entry with its flag set. */
  function Flagged(e: Entry): Entry { e.(copied := true) }

  function FlagRoot(s: State, i: nat): State
    requires i < |s.m.l1| == |s.diskL1|
  {
    s.(m := s.m.(l1 := s.m.l1[i := Flagged(s.m.l1[i])]), diskL1 := s.diskL1[i := Flagged(s.m.l1[i])])
  }

  function FlagEntry(s: State, t: nat, j: nat): State
    requires t < |s.m.hosts| && s.m.hosts[t].Table? && j < |s.m.hosts[t].es|
  {
    var es := s.m.hosts[t].es;
    s.(m := s.m.(hosts := s.m.hosts[t := Table(es[j := Flagged(es[j])])]))
  }

  lemma {:induction false} OccFlag(es: seq<Entry>, j: nat, n: nat)
    requires j < |es|
    ensures Occ(es[j := Flagged(es[j])], n) == Occ(es, n)
  {
    OccUpdate(es, j, Flagged(es[j]), n);
  }

  lemma {:induction false} DataRefsShape(hosts: seq<Cluster>, hosts': seq<Cluster>, l1: seq<Entry>, l1': seq<Entry>, n: nat)
    requires |l1'| == |l1| && forall i | 0 <= i < |l1| :: Occ(Below(hosts', l1'[i]), n) == Occ(Below(hosts, l1[i]), n)
    ensures DataRefs(hosts', l1', n) == DataRefs(hosts, l1, n)
  {
    hide Occ, Below;
    if |l1| > 0 { DataRefsShape(hosts, hosts', l1[..|l1| - 1], l1'[..|l1| - 1], n); }
  }

  /** Setting a flag changes no pointer. */
  lemma FlagExpected(g: Geo, m: Map, m': Map, n: nat)
    requires |m'.l1| == |m.l1| && Occ(m'.l1, n) == Occ(m.l1, n)
    requires forall i | 0 <= i < |m.l1| :: Occ(Below(m'.hosts, m'.l1[i]), n) == Occ(Below(m.hosts, m.l1[i]), n)
    requires m'.refTable == m.refTable && m'.refFirst == m.refFirst && m'.refClusters == m.refClusters
    ensures DataRefs(m'.hosts, m'.l1, n) == DataRefs(m.hosts, m.l1, n)
    ensures Expected(g, m', n) == Expected(g, m, n) && MetaRefs(g, m', n) == MetaRefs(g, m, n)
  {
    hide Occ, Below;
    DataRefsShape(m.hosts, m'.hosts, m.l1, m'.l1, n);
  }

  /** Books, tags and aliasing, for a state whose tables have the same pointers. */
  lemma FlagBooks(g: Geo, s: State, s': State, pend: multiset<nat>)
    requires NoAlias(g, s.m) && Counted(g, s, pend) && Tagged(g, s)
    requires s'.refs == s.refs && s'.tags == s.tags && |s'.m.hosts| == |s.m.hosts|
    requires forall n: nat :: SameRefs(g, s.m, s'.m, n)
    ensures NoAlias(g, s'.m) && Counted(g, s', pend) && Tagged(g, s')
  {
    hide DataRefs, Occ, OccN, Below, Expected, MetaRefs;
    forall n: nat | 0 < n < |s.m.hosts| ensures AloneAt(g, s'.m, n) {
      assert AloneAt(g, s.m, n) && SameRefs(g, s.m, s'.m, n);
    }
    forall n: nat | 0 <= n < |s.refs| ensures s.refs[n] == Expected(g, s'.m, n) + pend[n] {
      assert SameRefs(g, s.m, s'.m, n);
    }
    forall n: nat | 0 < n < |s.tags| ensures TagOk(g, s'.m, s.tags, n) {
      assert TagOk(g, s.m, s.tags, n) && SameRefs(g, s.m, s'.m, n);
    }
  }

  ghost predicate SameRefs(g: Geo, m: Map, m': Map, n: nat) {
    && Occ(m'.l1, n) == Occ(m.l1, n) && DataRefs(m'.hosts, m'.l1, n) == DataRefs(m.hosts, m.l1, n)
    && Expected(g, m', n) == Expected(g, m, n) && MetaRefs(g, m', n) == MetaRefs(g, m, n)
  }

  lemma RootFlagShape(g: Geo, m: Map, i: nat, n: nat)
    requires i < |m.l1|
    ensures SameRefs(g, m, m.(l1 := m.l1[i := Flagged(m.l1[i])]), n)
  {
    hide DataRefs, Occ, Below;
    var l1 := m.l1[i := Flagged(m.l1[i])];
    OccFlag(m.l1, i, n);
    forall k | 0 <= k < |m.l1| ensures Below(m.hosts, l1[k]) == Below(m.hosts, m.l1[k]) {
      BelowOff(m.hosts, m.l1[k], l1[k]);
    }
    FlagExpected(g, m, m.(l1 := l1), n);
  }

  lemma BelowOff(hosts: seq<Cluster>, e: Entry, e': Entry)
    requires e'.off == e.off
    ensures Below(hosts, e') == Below(hosts, e)
  {
  }

  lemma EntryFlagBelow(hosts: seq<Cluster>, t: nat, j: nat, e: Entry)
    requires 0 < t < |hosts| && hosts[t].Table? && j < |hosts[t].es|
    ensures var es := hosts[t].es;
      Below(hosts[t := Table(es[j := Flagged(es[j])])], e) == if e.off == t then es[j := Flagged(es[j])] else Below(hosts, e)
    ensures e.off == t ==> Below(hosts, e) == hosts[t].es
  {
  }

  lemma EntryFlagShape(g: Geo, m: Map, t: nat, j: nat, n: nat)
    requires 0 < t < |m.hosts| && m.hosts[t].Table? && j < |m.hosts[t].es|
    ensures var es := m.hosts[t].es; SameRefs(g, m, m.(hosts := m.hosts[t := Table(es[j := Flagged(es[j])])]), n)
  {
    hide DataRefs, Occ, Below;
    var es := m.hosts[t].es;
    var m' := m.(hosts := m.hosts[t := Table(es[j := Flagged(es[j])])]);
    forall k | 0 <= k < |m.l1| ensures Occ(Below(m'.hosts, m.l1[k]), n) == Occ(Below(m.hosts, m.l1[k]), n) {
      EntryFlagBelow(m.hosts, t, j, m.l1[k]);
      OccFlag(es, j, n);
    }
    FlagExpected(g, m, m', n);
  }

  lemma FlagRootKeeps(g: Geo, s: State, i: nat, n: nat, pend: multiset<nat>)
    requires KeptBut(g, s, pend, n) && i < |s.m.l1| && s.m.l1[i].off == n && n != 0
    ensures KeptBut(g, FlagRoot(s, i), pend, n) && SameView(g, s.m, FlagRoot(s, i).m)
  {
    hide DataRefs, Occ, OccN, Below, Expected, MetaRefs, Times, Quot, Slice, RowFlagsBut, EntryOf;
    var s' := FlagRoot(s, i);
    forall k: nat ensures SameRefs(g, s.m, s'.m, k) { RootFlagShape(g, s.m, i, k); }
    FlagBooks(g, s, s', pend);
    forall k | 0 <= k < |s.m.l1| ensures RootOk(g, s.m.hosts, s'.m.l1[k]) {
      assert RootOk(g, s.m.hosts, s.m.l1[k]);
    }
    forall k | 0 <= k < |s.m.l1| ensures RowFlagsBut(s.refs, Below(s.m.hosts, s'.m.l1[k]), n) {
      BelowOff(s.m.hosts, s.m.l1[k], s'.m.l1[k]);
    }
    forall k | 0 <= k < |s.m.refTable| ensures BlockClean(g, s', k) { assert BlockClean(g, s, k); }
    forall k: nat | k < s.m.refClusters && !s.tableDirty ensures ChunkClean(g, s', k) { assert ChunkClean(g, s, k); }
    forall c: nat ensures SameCluster(g, s.m, s'.m, c) {
      RootFlagView(g, s.m, i, c);
    }
  }

  lemma RootFlagView(g: Geo, m: Map, i: nat, c: nat)
    requires MapOk(g, m) && i < |m.l1|
    ensures SameCluster(g, m, m.(l1 := m.l1[i := Flagged(m.l1[i])]), c)
  {
    hide DataRefs, Occ, OccN, Below, MetaRefs, Times, Quot, RootOk;
    var q := Quot(g.per, c);
    var l1 := m.l1[i := Flagged(m.l1[i])];
    if q < |m.l1| { BelowOff(m.hosts, m.l1[q], l1[q]); }
    if EntryOf(g, m, c).off != 0 { EntryReached(g, m, c); }
  }

  /** The L2 table behind an L1 entry. */
  ghost predicate TableAt(m: Map, i: nat, t: nat) {
    i < |m.l1| && m.l1[i].off == t && 0 < t < |m.hosts| && m.hosts[t].Table?
  }

  lemma TableNotMeta(g: Geo, m: Map, i: nat)
    requires MapOk(g, m) && i < |m.l1| && m.l1[i].off != 0
    ensures TableAt(m, i, m.l1[i].off) && MetaRefs(g, m, m.l1[i].off) == 0 && |m.hosts[m.l1[i].off].es| == g.per
  {
    hide DataRefs, Occ, OccN, MetaRefs, Times;
    assert RootOk(g, m.hosts, m.l1[i]);
    OccOne(m.l1, i, m.l1[i].off);
    assert AloneAt(g, m, m.l1[i].off);
  }

  lemma FlagEntryRoots(g: Geo, m: Map, t: nat, j: nat, k: nat)
    requires MapOk(g, m) && 0 < t < |m.hosts| && m.hosts[t].Table? && j < |m.hosts[t].es| && m.hosts[t].es[j].off != 0 && k < |m.l1|
    ensures var es := m.hosts[t].es; RootOk(g, m.hosts[t := Table(es[j := Flagged(es[j])])], m.l1[k])
  {
    var es := m.hosts[t].es;
    var hosts := m.hosts[t := Table(es[j := Flagged(es[j])])];
    assert RootOk(g, m.hosts, m.l1[k]);
    if m.l1[k].off != 0 {
      var row := hosts[m.l1[k].off].es;
      forall x | 0 <= x < |row| ensures EntryOk(g, hosts, row[x]) {
        assert EntryOk(g, m.hosts, m.hosts[m.l1[k].off].es[x]);
      }
    }
  }

  lemma FlagEntryView(g: Geo, m: Map, t: nat, j: nat, c: nat)
    requires MapOk(g, m) && 0 < t < |m.hosts| && m.hosts[t].Table? && j < |m.hosts[t].es|
    ensures var es := m.hosts[t].es; SameCluster(g, m, m.(hosts := m.hosts[t := Table(es[j := Flagged(es[j])])]), c)
  {
    hide DataRefs, Occ, OccN, Below, MetaRefs, Times, Quot, RootOk;
    var q := Quot(g.per, c);
    if q < |m.l1| { EntryFlagBelow(m.hosts, t, j, m.l1[q]); }
    if EntryOf(g, m, c).off != 0 { EntryReached(g, m, c); }
  }

  lemma FlagEntryTracks(g: Geo, s: State, t: nat, j: nat)
    requires MapOk(g, s.m) && Tracked(g, s) && 0 < t < |s.m.hosts| && s.m.hosts[t].Table? && j < |s.m.hosts[t].es| && MetaRefs(g, s.m, t) == 0
    ensures Tracked(g, FlagEntry(s, t, j))
  {
    hide DataRefs, Occ, Times, Quot, Slice, RootOk;
    var s' := FlagEntry(s, t, j);
    forall k | 0 <= k < |s.m.refTable| ensures BlockClean(g, s', k) {
      assert BlockClean(g, s, k);
      if s.m.refTable[k] == t { OccNOne(s.m.refTable, k, t); }
    }
    forall k: nat | k < s.m.refClusters && !s.tableDirty ensures ChunkClean(g, s', k) {
      assert ChunkClean(g, s, k);
    }
  }

  lemma FlagEntryKeeps(g: Geo, s: State, t: nat, j: nat, n: nat, pend: multiset<nat>)
    requires KeptBut(g, s, pend, n) && 0 < t < |s.m.hosts| && s.m.hosts[t].Table? && MetaRefs(g, s.m, t) == 0
    requires j < |s.m.hosts[t].es| && s.m.hosts[t].es[j].off == n && n != 0
    ensures KeptBut(g, FlagEntry(s, t, j), pend, n) && SameView(g, s.m, FlagEntry(s, t, j).m)
  {
    hide DataRefs, Occ, OccN, Below, Expected, MetaRefs, Times, Quot, EntryOf, RootOk, Tracked, SameRefs;
    var s' := FlagEntry(s, t, j);
    forall k: nat ensures SameRefs(g, s.m, s'.m, k) { EntryFlagShape(g, s.m, t, j, k); }
    FlagBooks(g, s, s', pend);
    forall k | 0 <= k < |s.m.l1| ensures RootOk(g, s'.m.hosts, s.m.l1[k]) { FlagEntryRoots(g, s.m, t, j, k); }
    forall k | 0 <= k < |s.m.l1| ensures RowFlagsBut(s.refs, Below(s'.m.hosts, s.m.l1[k]), n) {
      EntryFlagBelow(s.m.hosts, t, j, s.m.l1[k]);
      assert RowFlagsBut(s.refs, Below(s.m.hosts, s.m.l1[k]), n);
    }
    FlagEntryTracks(g, s, t, j);
    forall c: nat ensures SameCluster(g, s.m, s'.m, c) { FlagEntryView(g, s.m, t, j, c); }
  }

  /** Every entry for `n` in the row has its flag set. */
  ghost predicate RowSet(es: seq<Entry>, n: nat) {
    forall j | 0 <= j < |es| :: es[j].off == n ==> es[j].copied
  }

  /** With every flag for `n` set and a count of one, the invariant holds again. */
  lemma RefreshDone(g: Geo, s: State, n: nat, pend: multiset<nat>)
    requires KeptBut(g, s, pend, n) && 0 < n < |s.refs| && s.refs[n] == 1
    requires RowSet(s.m.l1, n) && forall i | 0 <= i < |s.m.l1| :: RowSet(Below(s.m.hosts, s.m.l1[i]), n)
    ensures Kept(g, s, pend)
  {
    hide DataRefs, Occ, OccN, Times, MetaRefs, Below, Quot, Slice, Expected, Chunk, RootOk, NoAlias, TablesOk;
    forall i | 0 <= i < |s.m.l1| ensures RowFlags(s.refs, Below(s.m.hosts, s.m.l1[i])) {
      var es := Below(s.m.hosts, s.m.l1[i]);
      assert RowFlagsBut(s.refs, es, n) && RowSet(es, n);
    }
  }
}
