/** The open-time validator: it walks the tables, tallies every reference, and accepts exactly the
    consistent images. */
module Qcow2Validate {
  import opened Scale
  import opened Qcow2Map
  import opened Qcow2State
  import opened Qcow2Open
  import opened Qcow2Room
  import opened Qcow2

  const MAX_COUNT: nat := 0xFFFF

  /** Refcounts are 16 bits wide. */
  ghost predicate Sixteen(d: Disk) {
    forall b | 0 <= b < |d.hosts| :: d.hosts[b].Counts? ==> forall j | 0 <= j < |d.hosts[b].counts| :: d.hosts[b].counts[j] <= MAX_COUNT
  }

  function TagFor(m: nat, l: nat, t: nat): nat {
    if m > 0 then META else if l > 0 then L2 else if t > 0 then DATA else 0
  }

  /** The tally of one cluster: `m` metadata, `l` L2 and `t` data references so far, without aliasing. */
  predicate Fits(e: nat, tag: nat, m: nat, l: nat, t: nat) {
    e == m + l + t && tag == TagFor(m, l, t) && CanFit(m, l, t)
  }

  predicate CanFit(m: nat, l: nat, t: nat) {
    m + l + t <= MAX_COUNT && m <= 1 && (m == 1 ==> l == 0 && t == 0) && !(l > 0 && t > 0)
  }

  /** One reference: the test in `mark_region`. */
  method Mark(e: seq<nat>, tags: seq<nat>, n: nat, tag: nat) returns (ok: bool, e': seq<nat>, tags': seq<nat>)
    requires n < |e| == |tags|
    ensures ok <==> (tags[n] == 0 || (tag == tags[n] && tag in {DATA, L2})) && e[n] != MAX_COUNT
    ensures ok ==> e' == e[n := e[n] + 1] && tags' == tags[n := tag]
    ensures !ok ==> e' == e && tags' == tags
  {
    if (tags[n] != 0 && (tag != tags[n] || (tag != DATA && tag != L2))) || e[n] == MAX_COUNT {
      return false, e, tags;
    }
    return true, e[n := e[n] + 1], tags[n := tag];
  }

  /** A metadata region. */
  method MarkRun(e: seq<nat>, tags: seq<nat>, first: nat, count: nat) returns (ok: bool, e': seq<nat>, tags': seq<nat>)
    requires |e| == |tags| && forall n | 0 <= n < |e| :: e[n] != MAX_COUNT
    ensures ok <==> first + count <= |e| && forall n | first <= n < first + count :: tags[n] == 0
    ensures ok ==> |e'| == |tags'| == |e|
    ensures ok ==> forall n: nat | n < |e| :: e'[n] == e[n] + InRun(first, count, n) && tags'[n] == if first <= n < first + count then META else tags[n]
  {
    if first + count > |e| {
      return false, e, tags;
    }
    e', tags' := e, tags;
    for i := 0 to count
      invariant |e'| == |tags'| == |e|
      invariant forall n | first <= n < first + i :: tags[n] == 0
      invariant forall n: nat | n < |e| :: e'[n] == e[n] + InRun(first, i, n)
      invariant forall n: nat | n < |e| :: tags'[n] == if first <= n < first + i then META else tags[n]
    {
      ok, e', tags' := Mark(e', tags', first + i, META);
      if !ok {
        return;
      }
    }
    ok := true;
  }

  /** The tally after the header, the L1 table, the refcount table and `i` of its entries. */
  function MetaSoFar(g: Geo, d: Disk, table: seq<nat>, i: nat, n: nat): nat
    requires i <= |table|
  {
    if n == 0 then 1 else InRun(g.l1First, g.l1Clusters, n) + InRun(d.first, d.clusters, n) + OccN(table[..i], n)
  }

  lemma MetaWhole(g: Geo, d: Disk, n: nat)
    requires 0 < g.per && 0 < n
    ensures MetaSoFar(g, d, DiskTable(g, d), |DiskTable(g, d)|, n) == MetaRefs(g, DiskMap(g, d), n)
  {
    assert DiskTable(g, d)[..|DiskTable(g, d)|] == DiskTable(g, d);
  }

  lemma {:induction false} OccNPrefix(ps: seq<nat>, i: nat, n: nat)
    requires i <= |ps|
    ensures OccN(ps[..i], n) <= OccN(ps, n)
  {
    if i < |ps| {
      OccNPrefix(ps[..|ps| - 1], i, n);
      assert ps[..|ps| - 1][..i] == ps[..i];
    } else {
      assert ps[..i] == ps;
    }
  }

  lemma OccNNext(ps: seq<nat>, i: nat, n: nat)
    requires i < |ps|
    ensures OccN(ps[..i + 1], n) == OccN(ps[..i], n) + if ps[i] == n then 1 else 0
  {
    assert ps[..i + 1][..i] == ps[..i];
  }

  lemma {:induction false} OccPrefix(es: seq<Entry>, i: nat, n: nat)
    requires i <= |es|
    ensures Occ(es[..i], n) <= Occ(es, n)
  {
    if i < |es| {
      OccPrefix(es[..|es| - 1], i, n);
      assert es[..|es| - 1][..i] == es[..i];
    } else {
      assert es[..i] == es;
    }
  }

  lemma OccNext(es: seq<Entry>, i: nat, n: nat)
    requires i < |es|
    ensures Occ(es[..i + 1], n) == Occ(es[..i], n) + if es[i].off == n then 1 else 0
  {
    assert es[..i + 1][..i] == es[..i];
  }

  lemma {:induction false} DataPrefix(hosts: seq<Cluster>, l1: seq<Entry>, i: nat, n: nat)
    requires i <= |l1|
    ensures DataRefs(hosts, l1[..i], n) <= DataRefs(hosts, l1, n)
  {
    if i < |l1| {
      DataPrefix(hosts, l1[..|l1| - 1], i, n);
      assert l1[..|l1| - 1][..i] == l1[..i];
    } else {
      assert l1[..i] == l1;
    }
  }

  lemma DataNext(hosts: seq<Cluster>, l1: seq<Entry>, i: nat, n: nat)
    requires i < |l1|
    ensures DataRefs(hosts, l1[..i + 1], n) == DataRefs(hosts, l1[..i], n) + Occ(Below(hosts, l1[i]), n)
  {
    assert l1[..i + 1][..i] == l1[..i];
  }

  /** How far the walk over the tables has come: L1 entries tallied, rows finished, entries of the next row. */
  datatype Progress = Progress(roots: nat, rows: nat, j: nat)

  ghost predicate ProgressOk(d: Disk, p: Progress) {
    && p.rows <= p.roots <= p.rows + 1 && p.roots <= |d.l1|
    && p.j <= if p.roots > p.rows then |Below(d.hosts, d.l1[p.rows])| else 0
  }

  function RootsSoFar(d: Disk, p: Progress, n: nat): nat
    requires ProgressOk(d, p)
  {
    Occ(d.l1[..p.roots], n)
  }

  function DataSoFar(d: Disk, p: Progress, n: nat): nat
    requires ProgressOk(d, p)
  {
    DataRefs(d.hosts, d.l1[..p.rows], n) + if p.roots > p.rows then Occ(Below(d.hosts, d.l1[p.rows])[..p.j], n) else 0
  }

  ghost predicate TalliedAt(g: Geo, d: Disk, e: seq<nat>, tags: seq<nat>, p: Progress, n: nat)
    requires 0 < g.per && n < |e| == |tags| && ProgressOk(d, p)
  {
    if n == 0 then Fits(e[0], tags[0], 1, 0, 0)
    else Fits(e[n], tags[n], MetaRefs(g, DiskMap(g, d), n), RootsSoFar(d, p, n), DataSoFar(d, p, n))
  }

  ghost predicate Tallied(g: Geo, d: Disk, e: seq<nat>, tags: seq<nat>, p: Progress)
    requires 0 < g.per
  {
    && |e| == |tags| == |d.hosts| && 0 < |e| && ProgressOk(d, p)
    && forall n: nat | n < |e| :: TalliedAt(g, d, e, tags, p, n)
  }

  /** No tally exceeds the final count. */
  lemma SoFar(d: Disk, p: Progress, n: nat)
    requires ProgressOk(d, p)
    ensures RootsSoFar(d, p, n) <= Occ(d.l1, n) && DataSoFar(d, p, n) <= DataRefs(d.hosts, d.l1, n)
  {
    hide Occ, DataRefs, Below;
    OccPrefix(d.l1, p.roots, n);
    DataPrefix(d.hosts, d.l1, p.rows, n);
    if p.roots > p.rows {
      OccPrefix(Below(d.hosts, d.l1[p.rows]), p.j, n);
      DataNext(d.hosts, d.l1, p.rows, n);
      DataPrefix(d.hosts, d.l1, p.rows + 1, n);
    }
  }

  // ----- steps of the walk -----

  function NextRoot(p: Progress): Progress { p.(roots := p.roots + 1) }

  function NextEntry(p: Progress): Progress { p.(j := p.j + 1) }

  function RowDone(p: Progress): Progress { Progress(p.roots, p.rows + 1, 0) }

  lemma RootStep(d: Disk, p: Progress, n: nat)
    requires ProgressOk(d, p) && p.roots == p.rows < |d.l1|
    ensures ProgressOk(d, NextRoot(p))
    ensures RootsSoFar(d, NextRoot(p), n) == RootsSoFar(d, p, n) + if d.l1[p.rows].off == n then 1 else 0
    ensures DataSoFar(d, NextRoot(p), n) == DataSoFar(d, p, n)
  {
    hide Below;
    OccNext(d.l1, p.roots, n);
    assert Below(d.hosts, d.l1[p.rows])[..0] == [];
  }

  lemma EntryStep(d: Disk, p: Progress, n: nat)
    requires ProgressOk(d, p) && p.roots > p.rows && p.j < |Below(d.hosts, d.l1[p.rows])|
    ensures ProgressOk(d, NextEntry(p)) && RootsSoFar(d, NextEntry(p), n) == RootsSoFar(d, p, n)
    ensures DataSoFar(d, NextEntry(p), n) == DataSoFar(d, p, n) + if Below(d.hosts, d.l1[p.rows])[p.j].off == n then 1 else 0
  {
    hide Below, DataRefs;
    OccNext(Below(d.hosts, d.l1[p.rows]), p.j, n);
  }

  lemma RowStep(d: Disk, p: Progress, n: nat)
    requires ProgressOk(d, p) && p.roots > p.rows && p.j == |Below(d.hosts, d.l1[p.rows])|
    ensures ProgressOk(d, RowDone(p)) && RootsSoFar(d, RowDone(p), n) == RootsSoFar(d, p, n)
    ensures DataSoFar(d, RowDone(p), n) == DataSoFar(d, p, n)
  {
    hide Below;
    DataNext(d.hosts, d.l1, p.rows, n);
    assert Below(d.hosts, d.l1[p.rows])[..p.j] == Below(d.hosts, d.l1[p.rows]);
  }

  /** A step that adds no reference: an empty entry. */
  lemma Unmarked(g: Geo, d: Disk, e: seq<nat>, tags: seq<nat>, p: Progress, p': Progress)
    requires 0 < g.per && Tallied(g, d, e, tags, p) && ProgressOk(d, p')
    requires forall n: nat | 0 < n :: RootsSoFar(d, p', n) == RootsSoFar(d, p, n) && DataSoFar(d, p', n) == DataSoFar(d, p, n)
    ensures Tallied(g, d, e, tags, p')
  {
    hide RootsSoFar, DataSoFar, MetaRefs, Fits;
    forall n: nat | n < |e| ensures TalliedAt(g, d, e, tags, p', n) { assert TalliedAt(g, d, e, tags, p, n); }
  }

  /** What one more reference to `x` does to the tally: it fits exactly when `Mark` accepts it. */
  lemma Marked(g: Geo, d: Disk, e: seq<nat>, tags: seq<nat>, p: Progress, p': Progress, x: nat, tag: nat)
    requires 0 < g.per && Tallied(g, d, e, tags, p) && ProgressOk(d, p') && 0 < x < |e| && tag in {DATA, L2}
    requires forall n: nat :: RootsSoFar(d, p', n) == RootsSoFar(d, p, n) + if n == x && tag == L2 then 1 else 0
    requires forall n: nat :: DataSoFar(d, p', n) == DataSoFar(d, p, n) + if n == x && tag == DATA then 1 else 0
    ensures (tags[x] == 0 || tag == tags[x]) && e[x] != MAX_COUNT ==> Tallied(g, d, e[x := e[x] + 1], tags[x := tag], p')
    ensures !((tags[x] == 0 || tag == tags[x]) && e[x] != MAX_COUNT)
        ==> !CanFit(MetaRefs(g, DiskMap(g, d), x), RootsSoFar(d, p', x), DataSoFar(d, p', x))
  {
    hide RootsSoFar, DataSoFar, MetaRefs;
    assert TalliedAt(g, d, e, tags, p, x);
    if (tags[x] == 0 || tag == tags[x]) && e[x] != MAX_COUNT {
      var e1, t1 := e[x := e[x] + 1], tags[x := tag];
      forall n: nat | n < |e| ensures TalliedAt(g, d, e1, t1, p', n) {
        assert TalliedAt(g, d, e, tags, p, n);
      }
    }
  }

  /** In an accepted image every tally fits, at every point of the walk. */
  lemma AcceptedFits(g: Geo, d: Disk, p: Progress, n: nat)
    requires Accepted(g, d) && Sixteen(d) && ProgressOk(d, p) && 0 < n < |d.hosts|
    ensures CanFit(MetaRefs(g, DiskMap(g, d), n), RootsSoFar(d, p, n), DataSoFar(d, p, n))
  {
    hide RootsSoFar, DataSoFar, MetaRefs, Flags, Occ, DataRefs, Times, Quot, TableReadable, BlocksReadable;
    SoFar(d, p, n);
    var m := DiskMap(g, d);
    assert AloneAt(g, m, n);
    assert CountExact(g, d, n);
    SixteenBits(g, d, n);
    KindOf(g, m, n);
  }

  lemma SixteenBits(g: Geo, d: Disk, n: nat)
    requires 0 < g.per && Sixteen(d) && n < |d.hosts|
    ensures DiskRefs(g, d)[n] <= MAX_COUNT
  {
    hide DiskTable;
    var i := Quot(PerBlock(g), n);
  }

  /** An L2 table is not guest data. */
  lemma KindOf(g: Geo, m: Map, n: nat)
    requires MapOk(g, m) && 0 < n < |m.hosts|
    ensures Occ(m.l1, n) > 0 ==> m.hosts[n].Table?
    ensures DataRefs(m.hosts, m.l1, n) > 0 ==> m.hosts[n].Data?
  {
    if Occ(m.l1, n) > 0 {
      var i := OccFind(m.l1, n);
      assert RootOk(g, m.hosts, m.l1[i]);
    }
    if DataRefs(m.hosts, m.l1, n) > 0 {
      var k, j := DataRefsFind(m.hosts, m.l1, n);
      assert RootOk(g, m.hosts, m.l1[k]);
    }
  }

  // ----- the validator -----

  /** Everything the validator checks of one L1 entry and its table, besides the tally. */
  ghost predicate RootChecked(g: Geo, d: Disk, refs: seq<nat>, i: nat)
    requires i < |d.l1|
  {
    RootOk(g, d.hosts, d.l1[i]) && FlagOk(refs, d.l1[i]) && RowFlags(refs, Below(d.hosts, d.l1[i]))
  }

  lemma AcceptedRoot(g: Geo, d: Disk, i: nat)
    requires Accepted(g, d) && i < |d.l1|
    ensures RootChecked(g, d, DiskRefs(g, d), i)
  {
    hide DataRefs, Occ, OccN, Expected, DiskRefs;
  }

  predicate EntryFine(g: Geo, hosts: seq<Cluster>, refs: seq<nat>, e: Entry)
  {
    && (e.off == 0 ==> !e.copied) && (g.version == 2 ==> !e.zero)
    && (e.off != 0 ==> e.off < |hosts| && hosts[e.off].Data? && |hosts[e.off].bytes| == ClusterBytes(g))
    && FlagOk(refs, e)
  }

  lemma EntryFineIs(g: Geo, hosts: seq<Cluster>, refs: seq<nat>, e: Entry)
    ensures EntryFine(g, hosts, refs, e) <==> EntryOk(g, hosts, e) && FlagOk(refs, e)
  {
  }

  /** The entries of one L2 table. */
  method WalkRow(g: Geo, d: Disk, refs: seq<nat>, e: seq<nat>, tags: seq<nat>, i: nat) returns (ok: bool, e': seq<nat>, tags': seq<nat>)
    requires 0 < g.per && refs == DiskRefs(g, d) && Sixteen(d) && i < |d.l1| && 0 < d.l1[i].off < |d.hosts| && d.hosts[d.l1[i].off].Table?
    requires Tallied(g, d, e, tags, Progress(i + 1, i, 0))
    ensures ok ==> Tallied(g, d, e', tags', Progress(i + 1, i, |Below(d.hosts, d.l1[i])|))
    ensures ok ==> forall j | 0 <= j < |Below(d.hosts, d.l1[i])| :: EntryFine(g, d.hosts, refs, Below(d.hosts, d.l1[i])[j])
    ensures !ok ==> !Accepted(g, d)
  {
    hide Accepted, Tallied, TalliedAt, Fits, CanFit, RootsSoFar, DataSoFar, MetaRefs, DiskRefs;
    var es := d.hosts[d.l1[i].off].es;
    assert es == Below(d.hosts, d.l1[i]);
    e', tags' := e, tags;
    for j := 0 to |es|
      invariant Tallied(g, d, e', tags', Progress(i + 1, i, j))
      invariant forall k | 0 <= k < j :: EntryFine(g, d.hosts, refs, es[k])
    {
      ghost var p := Progress(i + 1, i, j);
      if !EntryFine(g, d.hosts, refs, es[j]) {
        BadEntry(g, d, i, j);
        return false, e', tags';
      }
      EntrySteps(d, p);
      TalliedSizes(g, d, e', tags', p);
      if es[j].off != 0 {
        ghost var e0, t0 := e', tags';
        ok, e', tags' := Mark(e', tags', es[j].off, DATA);
        Marked(g, d, e0, t0, p, NextEntry(p), es[j].off, DATA);
        if !ok {
          Overfull(g, d, NextEntry(p), es[j].off);
          return;
        }
      } else {
        Unmarked(g, d, e', tags', p, NextEntry(p));
      }
    }
    ok := true;
  }

  lemma TalliedSizes(g: Geo, d: Disk, e: seq<nat>, tags: seq<nat>, p: Progress)
    requires 0 < g.per && Tallied(g, d, e, tags, p)
    ensures |e| == |tags| == |d.hosts| && 0 < |e| && ProgressOk(d, p)
  {
  }

  lemma EntrySteps(d: Disk, p: Progress)
    requires ProgressOk(d, p) && p.roots > p.rows && p.j < |Below(d.hosts, d.l1[p.rows])|
    ensures ProgressOk(d, NextEntry(p))
    ensures forall n: nat :: RootsSoFar(d, NextEntry(p), n) == RootsSoFar(d, p, n)
    ensures forall n: nat :: DataSoFar(d, NextEntry(p), n) == DataSoFar(d, p, n) + if Below(d.hosts, d.l1[p.rows])[p.j].off == n then 1 else 0
  {
    hide RootsSoFar, DataSoFar, Below;
    EntryStep(d, p, 0);
    forall n: nat
      ensures RootsSoFar(d, NextEntry(p), n) == RootsSoFar(d, p, n)
      ensures DataSoFar(d, NextEntry(p), n) == DataSoFar(d, p, n) + if Below(d.hosts, d.l1[p.rows])[p.j].off == n then 1 else 0
    {
      EntryStep(d, p, n);
    }
  }

  lemma BadEntry(g: Geo, d: Disk, i: nat, j: nat)
    requires 0 < g.per && i < |d.l1| && j < |Below(d.hosts, d.l1[i])| && !EntryFine(g, d.hosts, DiskRefs(g, d), Below(d.hosts, d.l1[i])[j])
    ensures !Accepted(g, d)
  {
    hide DiskRefs, Accepted;
    EntryFineIs(g, d.hosts, DiskRefs(g, d), Below(d.hosts, d.l1[i])[j]);
    if Accepted(g, d) { AcceptedRoot(g, d, i); }
  }

  /** A reference that does not fit is one that no accepted image has. */
  lemma Overfull(g: Geo, d: Disk, p: Progress, n: nat)
    requires 0 < g.per && Sixteen(d) && ProgressOk(d, p) && 0 < n < |d.hosts|
    requires !CanFit(MetaRefs(g, DiskMap(g, d), n), RootsSoFar(d, p, n), DataSoFar(d, p, n))
    ensures !Accepted(g, d)
  {
    hide Accepted, CanFit, RootsSoFar, DataSoFar, MetaRefs;
    if Accepted(g, d) { AcceptedFits(g, d, p, n); }
  }

  predicate RootFine(g: Geo, hosts: seq<Cluster>, refs: seq<nat>, e: Entry) {
    && !e.zero && (e.off == 0 ==> e == NONE)
    && (e.off != 0 ==> e.off < |hosts| && hosts[e.off].Table? && |hosts[e.off].es| == g.per)
    && FlagOk(refs, e)
  }

  lemma BadRoot(g: Geo, d: Disk, i: nat)
    requires 0 < g.per && i < |d.l1| && !RootFine(g, d.hosts, DiskRefs(g, d), d.l1[i])
    ensures !Accepted(g, d)
  {
    hide DiskRefs, Accepted;
    if Accepted(g, d) { AcceptedRoot(g, d, i); }
  }

  lemma RootSteps(d: Disk, i: nat)
    requires i < |d.l1|
    ensures ProgressOk(d, Progress(i, i, 0)) && ProgressOk(d, Progress(i + 1, i, 0))
    ensures forall n: nat ::
      RootsSoFar(d, Progress(i + 1, i, 0), n) == RootsSoFar(d, Progress(i, i, 0), n) + if d.l1[i].off == n then 1 else 0
    ensures forall n: nat :: DataSoFar(d, Progress(i + 1, i, 0), n) == DataSoFar(d, Progress(i, i, 0), n)
  {
    hide RootsSoFar, DataSoFar, Below;
    var p := Progress(i, i, 0);
    RootStep(d, p, 0);
    forall n: nat
      ensures RootsSoFar(d, NextRoot(p), n) == RootsSoFar(d, p, n) + if d.l1[i].off == n then 1 else 0
      ensures DataSoFar(d, NextRoot(p), n) == DataSoFar(d, p, n)
    {
      RootStep(d, p, n);
    }
  }

  lemma RowSteps(d: Disk, i: nat)
    requires i < |d.l1|
    ensures var p := Progress(i + 1, i, |Below(d.hosts, d.l1[i])|); var p' := Progress(i + 1, i + 1, 0);
      && ProgressOk(d, p) && ProgressOk(d, p')
      && (forall n: nat :: RootsSoFar(d, p', n) == RootsSoFar(d, p, n) && DataSoFar(d, p', n) == DataSoFar(d, p, n))
  {
    hide RootsSoFar, DataSoFar, Below;
    var p := Progress(i + 1, i, |Below(d.hosts, d.l1[i])|);
    RowStep(d, p, 0);
    forall n: nat
      ensures RootsSoFar(d, RowDone(p), n) == RootsSoFar(d, p, n) && DataSoFar(d, RowDone(p), n) == DataSoFar(d, p, n)
    {
      RowStep(d, p, n);
    }
  }

  lemma RowFine(g: Geo, d: Disk, refs: seq<nat>, i: nat)
    requires i < |d.l1| && RootFine(g, d.hosts, refs, d.l1[i])
    requires forall j | 0 <= j < |Below(d.hosts, d.l1[i])| :: EntryFine(g, d.hosts, refs, Below(d.hosts, d.l1[i])[j])
    ensures RootChecked(g, d, refs, i)
  {
    hide EntryFine, FlagOk;
    var es := Below(d.hosts, d.l1[i]);
    forall j | 0 <= j < |es| ensures EntryOk(g, d.hosts, es[j]) && FlagOk(refs, es[j]) {
      EntryFineIs(g, d.hosts, refs, es[j]);
    }
  }

  /** One L1 entry: its own checks, its reference, and its table. */
  method WalkRoot(g: Geo, d: Disk, refs: seq<nat>, e: seq<nat>, tags: seq<nat>, i: nat) returns (ok: bool, e': seq<nat>, tags': seq<nat>)
    requires 0 < g.per && refs == DiskRefs(g, d) && Sixteen(d) && i < |d.l1| && Tallied(g, d, e, tags, Progress(i, i, 0))
    ensures ok ==> Tallied(g, d, e', tags', Progress(i + 1, i + 1, 0)) && RootChecked(g, d, refs, i)
    ensures !ok ==> !Accepted(g, d)
  {
    hide Accepted, Tallied, Fits, CanFit, RootsSoFar, DataSoFar, MetaRefs, DiskRefs, RootChecked;
    e', tags' := e, tags;
    if !RootFine(g, d.hosts, refs, d.l1[i]) {
      BadRoot(g, d, i);
      return false, e', tags';
    }
    ghost var p, p1 := Progress(i, i, 0), Progress(i + 1, i, 0);
    RootSteps(d, i);
    RowSteps(d, i);
    TalliedSizes(g, d, e, tags, p);
    if d.l1[i].off == 0 {
      Unmarked(g, d, e', tags', p, p1);
    } else {
      ok, e', tags' := Mark(e, tags, d.l1[i].off, L2);
      Marked(g, d, e, tags, p, p1, d.l1[i].off, L2);
      if !ok {
        Overfull(g, d, p1, d.l1[i].off);
        return;
      }
      ok, e', tags' := WalkRow(g, d, refs, e', tags', i);
      if !ok {
        return;
      }
    }
    RowFine(g, d, refs, i);
    Unmarked(g, d, e', tags', Progress(i + 1, i, |Below(d.hosts, d.l1[i])|), Progress(i + 1, i + 1, 0));
    ok := true;
  }

  // ----- metadata -----

  /** The metadata tally, with `i` refcount blocks done. */
  ghost predicate MetaTallied(g: Geo, d: Disk, table: seq<nat>, e: seq<nat>, tags: seq<nat>, i: nat) {
    && |e| == |tags| == |d.hosts| && 0 < |e| && i <= |table|
    && forall n: nat | n < |e| :: MetaAt(g, d, table, e, tags, i, n)
  }

  predicate MetaAt(g: Geo, d: Disk, table: seq<nat>, e: seq<nat>, tags: seq<nat>, i: nat, n: nat)
    requires n < |e| == |tags| && i <= |table|
  {
    Fits(e[n], tags[n], MetaSoFar(g, d, table, i, n), 0, 0)
  }

  lemma AcceptedMeta(g: Geo, d: Disk, i: nat, n: nat)
    requires Accepted(g, d) && i <= |DiskTable(g, d)| && 0 < n < |d.hosts|
    ensures MetaSoFar(g, d, DiskTable(g, d), i, n) <= 1
  {
    hide DiskTable, Flags, Occ, DataRefs;
    assert AloneAt(g, DiskMap(g, d), n);
    OccNPrefix(DiskTable(g, d), i, n);
  }

  /** Header, L1 table and refcount table. */
  method MarkTables(g: Geo, d: Disk, table: seq<nat>) returns (ok: bool, e: seq<nat>, tags: seq<nat>)
    requires GeoOk(g) && table == DiskTable(g, d)
    ensures ok ==> MetaTallied(g, d, table, e, tags, 0) && g.l1First + g.l1Clusters <= |d.hosts|
    ensures ok ==> d.first + d.clusters <= |d.hosts| && (0 < d.clusters ==> 0 < d.first)
    ensures !ok ==> d.clusters == 0 || !Accepted(g, d)
  {
    hide Accepted, DiskTable;
    var n := |d.hosts|;
    e, tags := seq(n, _ => 0), seq(n, _ => 0);
    ok, e, tags := MarkRun(e, tags, 0, 1);
    if !ok {
      NoHeader(g, d);
      return;
    }
    ok, e, tags := MarkRun(e, tags, g.l1First, g.l1Clusters);
    if !ok {
      NoL1(g, d);
      return;
    }
    ghost var t1 := tags;
    assert t1[0] == META && forall k: nat | k < n :: t1[k] != 0 ==> k == 0 || g.l1First <= k < g.l1First + g.l1Clusters;
    ok, e, tags := MarkRun(e, tags, d.first, d.clusters);
    if !ok {
      if 0 < d.clusters { NoTable(g, d, t1); }
      return;
    }
    forall k: nat | k < |e| ensures MetaAt(g, d, table, e, tags, 0, k) {
      assert OccN(table[..0], k) == 0;
    }
  }

  lemma NoHeader(g: Geo, d: Disk)
    requires GeoOk(g) && |d.hosts| == 0
    ensures !Accepted(g, d)
  {
  }

  lemma NoL1(g: Geo, d: Disk)
    requires GeoOk(g) && g.l1First + g.l1Clusters > |d.hosts|
    ensures !Accepted(g, d)
  {
  }

  /** In an accepted image the refcount table overlaps neither the header nor the L1 table. */
  lemma TableApart(g: Geo, d: Disk, n: nat)
    requires GeoOk(g) && d.first <= n < d.first + d.clusters && n < |d.hosts|
    ensures Accepted(g, d) ==> n != 0 && !(g.l1First <= n < g.l1First + g.l1Clusters)
  {
    hide Occ, DataRefs, OccN, DiskTable, Flags;
    if Accepted(g, d) {
      assert n != 0 ==> AloneAt(g, DiskMap(g, d), n);
    }
  }

  lemma NoTable(g: Geo, d: Disk, tags: seq<nat>)
    requires GeoOk(g) && |tags| == |d.hosts| && 0 < d.clusters
    requires forall n: nat | n < |tags| :: tags[n] != 0 ==> n == 0 || g.l1First <= n < g.l1First + g.l1Clusters
    requires d.first + d.clusters > |d.hosts| || exists n :: d.first <= n < d.first + d.clusters && tags[n] != 0
    ensures !Accepted(g, d)
  {
    hide Occ, DataRefs, OccN, DiskTable, Flags;
    forall n: nat | d.first <= n < d.first + d.clusters && n < |d.hosts| ensures Accepted(g, d) ==> tags[n] == 0 {
      TableApart(g, d, n);
    }
  }

  /** The refcount table entries: each block is marked and its counts are read. */
  method MarkBlocks(g: Geo, d: Disk, table: seq<nat>, e0: seq<nat>, tags0: seq<nat>) returns (ok: bool, e: seq<nat>, tags: seq<nat>)
    requires GeoOk(g) && table == DiskTable(g, d) && MetaTallied(g, d, table, e0, tags0, 0)
    ensures ok ==> MetaTallied(g, d, table, e, tags, |table|) && BlocksReadable(g, d)
    ensures ok ==> forall i | 0 <= i < |table| :: table[i] < |d.hosts|
    ensures !ok ==> !Accepted(g, d)
  {
    hide Accepted, DiskTable, MetaAt, MetaTallied, BlockReadable;
    e, tags := e0, tags0;
    for i := 0 to |table|
      invariant MetaTallied(g, d, table, e, tags, i)
      invariant forall k | 0 <= k < i :: BlockReadable(g, d, k, table[k]) && table[k] < |d.hosts|
    {
      MetaSizes(g, d, table, e, tags, i);
      if !BlockReadable(g, d, i, table[i]) {
        BadBlock(g, d, i);
        return false, e, tags;
      }
      if table[i] != 0 {
        assert table[i] < |d.hosts| by { BlockInside(g, d, i, table[i]); }
        ghost var e1, t1 := e, tags;
        ok, e, tags := Mark(e, tags, table[i], META);
        BlockMarked(g, d, table, e1, t1, i);
        if !ok {
          return;
        }
      } else {
        NoBlock(g, d, table, e, tags, i);
      }
    }
    ok := true;
  }

  lemma MetaSizes(g: Geo, d: Disk, table: seq<nat>, e: seq<nat>, tags: seq<nat>, i: nat)
    requires MetaTallied(g, d, table, e, tags, i)
    ensures |e| == |tags| == |d.hosts| && 0 < |e|
  {
  }

  lemma BlockInside(g: Geo, d: Disk, i: nat, b: nat)
    requires BlockReadable(g, d, i, b) && b != 0
    ensures b < |d.hosts|
  {
  }

  lemma BadBlock(g: Geo, d: Disk, i: nat)
    requires 0 < g.per && i < |DiskTable(g, d)| && !BlockReadable(g, d, i, DiskTable(g, d)[i])
    ensures !Accepted(g, d)
  {
    hide BlockReadable, DiskTable, MapOk, Flags, Expected;
  }

  lemma MetaNext(g: Geo, d: Disk, table: seq<nat>, i: nat, n: nat)
    requires i < |table| && 0 < n
    ensures MetaSoFar(g, d, table, i + 1, n) == MetaSoFar(g, d, table, i, n) + if table[i] == n then 1 else 0
  {
    OccNNext(table, i, n);
  }

  lemma BlockMarked(g: Geo, d: Disk, table: seq<nat>, e: seq<nat>, tags: seq<nat>, i: nat)
    requires GeoOk(g) && table == DiskTable(g, d) && MetaTallied(g, d, table, e, tags, i) && i < |table| && 0 < table[i] < |d.hosts|
    ensures |e| == |tags| == |d.hosts|
    ensures tags[table[i]] == 0 ==> MetaTallied(g, d, table, e[table[i] := e[table[i]] + 1], tags[table[i] := META], i + 1)
    ensures tags[table[i]] == 0 ==> e[table[i]] != MAX_COUNT
    ensures tags[table[i]] != 0 ==> !Accepted(g, d)
  {
    hide Accepted, DiskTable, MetaSoFar;
    var b := table[i];
    assert MetaAt(g, d, table, e, tags, i, b);
    MetaNext(g, d, table, i, b);
    if tags[b] == 0 {
      var e1, t1, k := e[b := e[b] + 1], tags[b := META], i + 1;
      forall n: nat | n < |e| ensures MetaAt(g, d, table, e1, t1, k, n) {
        assert MetaAt(g, d, table, e, tags, i, n);
        if n > 0 { MetaNext(g, d, table, i, n); } else { HeaderSoFar(g, d, table, i); }
      }
    } else if Accepted(g, d) {
      AcceptedMeta(g, d, i + 1, b);
    }
  }

  lemma HeaderSoFar(g: Geo, d: Disk, table: seq<nat>, i: nat)
    requires i < |table|
    ensures MetaSoFar(g, d, table, i, 0) == MetaSoFar(g, d, table, i + 1, 0) == 1
  {
  }

  lemma NoBlock(g: Geo, d: Disk, table: seq<nat>, e: seq<nat>, tags: seq<nat>, i: nat)
    requires MetaTallied(g, d, table, e, tags, i) && i < |table| && table[i] == 0
    ensures MetaTallied(g, d, table, e, tags, i + 1)
  {
    hide MetaSoFar;
    var k := i + 1;
    forall n: nat | n < |e| ensures MetaAt(g, d, table, e, tags, k, n) {
      assert MetaAt(g, d, table, e, tags, i, n);
      if n > 0 { MetaNext(g, d, table, i, n); } else { HeaderSoFar(g, d, table, i); }
    }
  }

  // ----- the whole -----

  lemma WalkBegins(g: Geo, d: Disk, table: seq<nat>, e: seq<nat>, tags: seq<nat>)
    requires GeoOk(g) && table == DiskTable(g, d) && MetaTallied(g, d, table, e, tags, |table|)
    ensures Tallied(g, d, e, tags, Progress(0, 0, 0))
  {
    hide DiskTable, MetaSoFar, MetaRefs;
    var p := Progress(0, 0, 0);
    forall n: nat | n < |e| ensures TalliedAt(g, d, e, tags, p, n) {
      assert MetaAt(g, d, table, e, tags, |table|, n);
      if n > 0 { MetaWhole(g, d, n); } else { HeaderOne(g, d, table); }
      assert d.l1[..0] == [];
    }
  }

  lemma HeaderOne(g: Geo, d: Disk, table: seq<nat>)
    ensures MetaSoFar(g, d, table, |table|, 0) == 1
  {
  }

  /** At the end of the walk the tally is the number of paths, and nothing aliases. */
  lemma WalkEnds(g: Geo, d: Disk, e: seq<nat>, tags: seq<nat>, n: nat)
    requires 0 < g.per && Tallied(g, d, e, tags, Progress(|d.l1|, |d.l1|, 0)) && n < |d.hosts|
    ensures e[n] == Expected(g, DiskMap(g, d), n) && (0 < n ==> AloneAt(g, DiskMap(g, d), n) && TagOk(g, DiskMap(g, d), tags, n))
  {
    hide DiskTable, MetaRefs, Occ, DataRefs;
    assert TalliedAt(g, d, e, tags, Progress(|d.l1|, |d.l1|, 0), n);
    assert d.l1[..|d.l1|] == d.l1;
  }

  lemma Consistent(g: Geo, d: Disk, e: seq<nat>, tags: seq<nat>)
    requires GeoOk(g) && TableReadable(g, d) && BlocksReadable(g, d) && 0 < d.clusters && 0 < d.first
    requires g.l1First + g.l1Clusters <= |d.hosts| && d.first + d.clusters <= |d.hosts|
    requires forall i | 0 <= i < |DiskTable(g, d)| :: DiskTable(g, d)[i] < |d.hosts|
    requires Tallied(g, d, e, tags, Progress(|d.l1|, |d.l1|, 0)) && e == DiskRefs(g, d)
    requires forall i | 0 <= i < |d.l1| :: RootChecked(g, d, e, i)
    ensures Accepted(g, d) && TagsFit(g, d, tags)
  {
    hide DiskTable, MetaRefs, Occ, DataRefs, Expected, BlocksReadable, TableReadable, Times, DiskRefs;
    TalliedSizes(g, d, e, tags, Progress(|d.l1|, |d.l1|, 0));
    forall n: nat | n < |d.hosts| ensures CountExact(g, d, n) && (0 < n ==> AloneAt(g, DiskMap(g, d), n) && TagOk(g, DiskMap(g, d), tags, n)) {
      WalkEnds(g, d, e, tags, n);
    }
    forall i | 0 <= i < |d.l1| ensures RootOk(g, d.hosts, d.l1[i]) && FlagOk(e, d.l1[i]) && RowFlags(e, Below(d.hosts, d.l1[i])) {
      assert RootChecked(g, d, e, i);
    }
  }

  lemma WrongCount(g: Geo, d: Disk, e: seq<nat>, tags: seq<nat>)
    requires 0 < g.per && Tallied(g, d, e, tags, Progress(|d.l1|, |d.l1|, 0)) && e != DiskRefs(g, d)
    ensures !Accepted(g, d)
  {
    hide DiskTable, MetaRefs, Occ, DataRefs, Expected, DiskRefs, MapOk, Flags, BlocksReadable, TableReadable;
    if Accepted(g, d) {
      forall n: nat | n < |e| ensures e[n] == DiskRefs(g, d)[n] {
        assert CountExact(g, d, n);
        WalkEnds(g, d, e, tags, n);
      }
    }
  }

  /** `validate_tables`: accepts exactly the consistent images, and tags their clusters. */
  method ValidateTables(g: Geo, d: Disk) returns (ok: bool, refs: seq<nat>, tags: seq<nat>)
    requires GeoOk(g) && Sixteen(d)
    ensures ok <==> Accepted(g, d)
    ensures ok ==> refs == DiskRefs(g, d) && TagsFit(g, d, tags)
  {
    hide Accepted, DiskTable, MetaTallied, Tallied, TableReadable, BlocksReadable, DiskRefs, RootChecked, TagsFit, MetaRefs;
    refs, tags := [], [];
    var readable := d.clusters > 0;
    for k := 0 to d.clusters
      invariant readable ==> 0 < d.clusters && forall i: nat | i < k :: ChunkReadable(g, d, i)
      invariant !readable ==> d.clusters == 0 || !Accepted(g, d)
    {
      if !ChunkReadable(g, d, k) {
        BadChunk(g, d, k);
        readable := false;
      }
    }
    if !readable {
      if d.clusters == 0 { NoClusters(g, d); }
      return false, refs, tags;
    }
    assert TableReadable(g, d) by { AllReadable(g, d); }
    var table, e := DiskTable(g, d), [];
    ok, e, tags := MarkTables(g, d, table);
    if !ok {
      return;
    }
    ok, e, tags := MarkBlocks(g, d, table, e, tags);
    if !ok {
      return;
    }
    refs := DiskRefs(g, d);
    WalkBegins(g, d, table, e, tags);
    for i := 0 to |d.l1|
      invariant Tallied(g, d, e, tags, Progress(i, i, 0))
      invariant forall k | 0 <= k < i :: RootChecked(g, d, refs, k)
    {
      ok, e, tags := WalkRoot(g, d, refs, e, tags, i);
      if !ok {
        return;
      }
    }
    if e != refs {
      WrongCount(g, d, e, tags);
      return false, refs, tags;
    }
    Consistent(g, d, e, tags);
    ok := true;
  }

  lemma BadChunk(g: Geo, d: Disk, k: nat)
    requires k < d.clusters && !ChunkReadable(g, d, k)
    ensures !Accepted(g, d)
  {
    hide ChunkReadable, MapOk, Flags, Expected, BlocksReadable;
  }

  lemma NoClusters(g: Geo, d: Disk)
    requires d.clusters == 0
    ensures !Accepted(g, d)
  {
  }

  lemma AllReadable(g: Geo, d: Disk)
    requires forall i: nat | i < d.clusters :: ChunkReadable(g, d, i)
    ensures TableReadable(g, d)
  {
  }

  // ----- open, sync, open again -----

  /** Clusters that the guest size needs, against what the L1 table reaches. */
  lemma CapacityFrom(g: Geo, n: nat)
    requires 0 < g.per && (g.size + 8 * g.per - 1) / (8 * g.per) <= Times(g.per, n)
    ensures Capacity(g, n)
  {
    QuotIsDivision(8 * g.per, g.size + 8 * g.per - 1);
    var q := Quot(8 * g.per, g.size + 8 * g.per - 1);
    forall c: nat | Times(ClusterBytes(g), c) < g.size ensures Quot(g.per, c) < n {
      if q <= c { if q < c { TimesMonotone(8 * g.per, q, c); } }
      QuotBelow(g.per, c, n);
    }
  }

  lemma CapacityNeeds(g: Geo, n: nat)
    requires Capacity(g, n)
    ensures (g.size + 8 * g.per - 1) / (8 * g.per) <= Times(g.per, n)
  {
    hide Times, Quot, Capacity;
    assert 0 < g.per by { CapacityPer(g, n); }
    var cs := 8 * g.per;
    QuotIsDivision(cs, g.size + cs - 1);
    LastCluster(g, n, cs, Quot(cs, g.size + cs - 1));
  }

  lemma CapacityPer(g: Geo, n: nat)
    requires Capacity(g, n)
    ensures 0 < g.per
  {
  }

  lemma LastCluster(g: Geo, n: nat, cs: nat, q: nat)
    requires Capacity(g, n) && cs == ClusterBytes(g) && Times(cs, q) <= g.size + cs - 1
    ensures q <= Times(g.per, n)
  {
    hide Times, Quot, Capacity;
    if q > 0 {
      var c: nat := q - 1;
      NextTimes(cs, c);
      CapacityPer(g, n);
      CapacityAt(g, n, c);
      var k := Quot(g.per, c);
      NextTimes(g.per, k);
      if k + 1 < n { TimesMonotone(g.per, k + 1, n); }
    }
  }

  lemma NextTimes(k: nat, n: nat)
    ensures Times(k, n + 1) == Times(k, n) + k
  {
  }

  /** What an image must satisfy to be opened. */
  ghost predicate Openable(g: Geo, d: Disk) {
    && |d.hosts| <= MAX_CLUSTERS && 8 * Times(g.per, d.clusters) <= MAX_REF_BYTES
    && Capacity(g, |d.l1|) && Accepted(g, d)
  }

  /** The rest of `qcow_open`, once the header has been read: an image opens exactly when it and its
      refcount table are small enough, its L1 table reaches the whole guest, and its tables are consistent. */
  method Open(g: Geo, d: Disk, writable: bool, answers: seq<Answer>) returns (q: Qcow?)
    requires GeoOk(g) && Sixteen(d)
    ensures q != null <==> Openable(g, d)
    ensures q != null ==> fresh(q) && q.g == g && q.writable == writable && q.Usable() && !q.changed && !q.failed
    ensures q != null ==> q.M() == DiskMap(g, d) && q.answers == answers
  {
    hide Accepted, Capacity, Ready, Flushed, DiskMap, DiskRefs, DiskTable, TagsFit, Times;
    q := null;
    var entries := Mul(g.per, d.clusters);
    if 8 * entries > MAX_REF_BYTES {
      return;
    }
    var reach := Mul(g.per, |d.l1|);
    var needed := (g.size + 8 * g.per - 1) / (8 * g.per);
    if |d.hosts| > MAX_CLUSTERS {
      return;
    }
    if needed > reach {
      NotEnough(g, |d.l1|);
      return;
    }
    CapacityFrom(g, |d.l1|);
    var ok, refs, tags := ValidateTables(g, d);
    if !ok {
      return;
    }
    OpenedReady(g, d, tags);
    q := new Qcow(g, writable, Opened(g, d, tags), answers);
    OpenedMap(g, d, tags);
  }

  lemma NotEnough(g: Geo, n: nat)
    requires 0 < g.per && (g.size + 8 * g.per - 1) / (8 * g.per) > Times(g.per, n)
    ensures !Capacity(g, n)
  {
    if Capacity(g, n) { CapacityNeeds(g, n); }
  }

  lemma OpenedMap(g: Geo, d: Disk, tags: seq<nat>)
    requires 0 < g.per
    ensures Opened(g, d, tags).m == DiskMap(g, d) && DiskMap(g, d).l1 == d.l1 && DiskMap(g, d).hosts == d.hosts
    ensures |DiskMap(g, d).refTable| == Times(g.per, d.clusters)
  {
  }

  /** After a sync the next open takes the file, and the guest finds the same bytes in it. */
  lemma Reopens(q: Qcow)
    requires q.Usable() && Flushed(q.St())
    ensures Openable(q.g, OnDisk(q.St()))
    ensures Guest(q.g, DiskMap(q.g, OnDisk(q.St()))) == Guest(q.g, q.M())
  {
    hide Ready, Capacity, Flushed;
    CompleteReopens(q);
  }

  /** Whatever failed before, a version 3 file that does not say dirty opens, with the guest bytes that the
      last successful call left. */
  lemma CleanReopens(q: Qcow)
    requires q.Held() && q.g.version == 3 && !q.hdrDirty
    ensures Openable(q.g, OnDisk(q.St()))
    ensures Guest(q.g, DiskMap(q.g, OnDisk(q.St()))) == Guest(q.g, q.M())
  {
    hide Ready, Capacity, Flushed;
    CompleteReopens(q);
  }

  lemma CompleteReopens(q: Qcow)
    requires q.Sound() && Flushed(q.St())
    ensures 0 < q.g.per && Openable(q.g, OnDisk(q.St()))
    ensures Guest(q.g, DiskMap(q.g, OnDisk(q.St()))) == Guest(q.g, q.M())
  {
    hide Accepted, Guest, Capacity, Flushed, Ready, Times;
    var s := q.St();
    SyncedAccepted(q.g, s);
    ReadySizes(q.g, s, multiset{});
    KeptSizes(q.g, s, multiset{});
    HeaderNames(q.g, s);
    TableOnDisk(q.g, s);
  }

  /** The header of a flushed file names the table in use. */
  lemma HeaderNames(g: Geo, s: State)
    requires Ready(g, s, multiset{}) && Flushed(s)
    ensures s.hdrFirst == s.m.refFirst && s.hdrClusters == s.m.refClusters
  {
    hide MapOk, Counted, Tagged, Flags;
  }
}
