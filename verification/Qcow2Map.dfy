/** The mapping of a QCOW2 image: which host clusters the L1 and L2 tables reach, how often, and what
    the guest reads through them. Offsets are host cluster numbers; zero means unallocated. */
module Qcow2Map {
  import opened Scale

  datatype Entry = Entry(off: nat, copied: bool, zero: bool)

  const NONE := Entry(0, false, false)

  /** What a host cluster holds. */
  datatype Cluster =
    | Data(bytes: seq<Byte>)        // guest data
    | Table(es: seq<Entry>)         // an L2 table
    | Counts(counts: seq<nat>)      // a refcount block
    | Pointers(ps: seq<nat>)        // one cluster of the refcount table
    | Plain                         // header, L1 table, unused

  /** Fixed properties: `per` table entries in a cluster, hence `8 * per` bytes and `4 * per` refcounts. */
  datatype Geo = Geo(per: nat, size: nat, version: nat, l1First: nat, l1Clusters: nat, parent: seq<Byte>)

  function ClusterBytes(g: Geo): nat { 8 * g.per }

  /** A refcount takes two bytes. */
  function PerBlock(g: Geo): (n: nat)
    ensures 2 * n == ClusterBytes(g)
  {
    4 * g.per
  }

  /** The structures that reach host clusters. */
  datatype Map = Map(hosts: seq<Cluster>, l1: seq<Entry>, refTable: seq<nat>, refFirst: nat, refClusters: nat)

  // ----- counting references, one per path -----

  function Occ(es: seq<Entry>, n: nat): nat {
    if |es| == 0 then 0 else Occ(es[..|es| - 1], n) + if es[|es| - 1].off == n then 1 else 0
  }

  /** The L2 entries behind an L1 entry. */
  function Below(hosts: seq<Cluster>, e: Entry): seq<Entry> {
    if e.off == 0 || e.off >= |hosts| || !hosts[e.off].Table? then [] else hosts[e.off].es
  }

  /** References to a data cluster: a shared L2 table counts once for each L1 entry that shares it. */
  function DataRefs(hosts: seq<Cluster>, l1: seq<Entry>, n: nat): nat {
    if |l1| == 0 then 0
    else DataRefs(hosts, l1[..|l1| - 1], n) + Occ(Below(hosts, l1[|l1| - 1]), n)
  }

  function OccN(ps: seq<nat>, n: nat): nat {
    if |ps| == 0 then 0 else OccN(ps[..|ps| - 1], n) + if ps[|ps| - 1] == n then 1 else 0
  }

  function InRun(first: nat, count: nat, n: nat): nat {
    if first <= n < first + count then 1 else 0
  }

  /** Header, L1 table, refcount table and refcount blocks. */
  function MetaRefs(g: Geo, m: Map, n: nat): nat {
    InRun(0, 1, n) + InRun(g.l1First, g.l1Clusters, n) + InRun(m.refFirst, m.refClusters, n) + OccN(m.refTable, n)
  }

  /** What the refcount of cluster `n` must be. */
  function Expected(g: Geo, m: Map, n: nat): nat {
    if n == 0 then 1 else MetaRefs(g, m, n) + Occ(m.l1, n) + DataRefs(m.hosts, m.l1, n)
  }

  lemma {:induction false} OccUpdate(es: seq<Entry>, i: nat, e: Entry, n: nat)
    requires i < |es|
    ensures Occ(es[i := e], n) + (if es[i].off == n then 1 else 0) == Occ(es, n) + if e.off == n then 1 else 0
  {
    var k := |es| - 1;
    if i == k {
      assert es[i := e][..k] == es[..k];
    } else {
      OccUpdate(es[..k], i, e, n);
      assert es[i := e][..k] == es[..k][i := e];
    }
  }

  lemma {:induction false} OccOne(es: seq<Entry>, i: nat, n: nat)
    requires i < |es| && es[i].off == n
    ensures 0 < Occ(es, n)
  {
    if i < |es| - 1 { OccOne(es[..|es| - 1], i, n); }
  }

  lemma {:induction false} OccTwo(es: seq<Entry>, i: nat, j: nat, n: nat)
    requires i < j < |es| && es[i].off == n && es[j].off == n
    ensures 2 <= Occ(es, n)
  {
    var k := |es| - 1;
    if j < k { OccTwo(es[..k], i, j, n); } else { OccOne(es[..k], i, n); }
  }

  lemma {:induction false} OccFind(es: seq<Entry>, n: nat) returns (i: nat)
    requires 0 < Occ(es, n)
    ensures i < |es| && es[i].off == n
  {
    var k := |es| - 1;
    if es[k].off == n { i := k; } else { i := OccFind(es[..k], n); }
  }

  lemma {:induction false} OccZero(es: seq<Entry>, n: nat)
    requires forall i | 0 <= i < |es| :: es[i].off != n
    ensures Occ(es, n) == 0
  {
    if |es| > 0 { OccZero(es[..|es| - 1], n); }
  }

  lemma {:induction false} OccNUpdate(ps: seq<nat>, i: nat, p: nat, n: nat)
    requires i < |ps|
    ensures OccN(ps[i := p], n) + (if ps[i] == n then 1 else 0) == OccN(ps, n) + if p == n then 1 else 0
  {
    var k := |ps| - 1;
    if i == k {
      assert ps[i := p][..k] == ps[..k];
    } else {
      OccNUpdate(ps[..k], i, p, n);
      assert ps[i := p][..k] == ps[..k][i := p];
    }
  }

  lemma {:induction false} OccNOne(ps: seq<nat>, i: nat, n: nat)
    requires i < |ps| && ps[i] == n
    ensures 0 < OccN(ps, n)
  {
    if i < |ps| - 1 { OccNOne(ps[..|ps| - 1], i, n); }
  }

  lemma {:induction false} OccNTwo(ps: seq<nat>, i: nat, j: nat, n: nat)
    requires i < j < |ps| && ps[i] == n && ps[j] == n
    ensures 2 <= OccN(ps, n)
  {
    var k := |ps| - 1;
    if j < k { OccNTwo(ps[..k], i, j, n); } else { OccNOne(ps[..k], i, n); }
  }

  lemma {:induction false} OccNGrow(ps: seq<nat>, k: nat, n: nat)
    requires n != 0
    ensures OccN(ps + seq(k, _ => 0), n) == OccN(ps, n)
  {
    if k == 0 {
      assert ps + seq(0, _ => 0) == ps;
    } else {
      OccNGrow(ps, k - 1, n);
      assert (ps + seq(k, _ => 0))[..|ps| + k - 1] == ps + seq(k - 1, _ => 0);
    }
  }

  /** Pointing an L1 entry at another table moves the references of both tables. */
  lemma {:induction false} DataRefsRetarget(hosts: seq<Cluster>, l1: seq<Entry>, i: nat, e: Entry, n: nat)
    requires i < |l1|
    ensures DataRefs(hosts, l1[i := e], n) + Occ(Below(hosts, l1[i]), n) == DataRefs(hosts, l1, n) + Occ(Below(hosts, e), n)
  {
    hide Below, Occ;
    var k := |l1| - 1;
    if i == k {
      assert l1[i := e][..k] == l1[..k];
    } else {
      DataRefsRetarget(hosts, l1[..k], i, e, n);
      assert l1[i := e][..k] == l1[..k][i := e];
    }
  }

  /** Only the tables behind the L1 entries matter. */
  lemma {:induction false} DataRefsFrame(hosts: seq<Cluster>, hosts': seq<Cluster>, l1: seq<Entry>, n: nat)
    requires forall i | 0 <= i < |l1| :: Below(hosts', l1[i]) == Below(hosts, l1[i])
    ensures DataRefs(hosts', l1, n) == DataRefs(hosts, l1, n)
  {
    if |l1| > 0 { DataRefsFrame(hosts, hosts', l1[..|l1| - 1], n); }
  }

  /** Editing a table that one L1 entry reaches moves the references of the edited entries. */
  lemma {:induction false} DataRefsEdit(hosts: seq<Cluster>, hosts': seq<Cluster>, l1: seq<Entry>, i: nat, n: nat)
    requires i < |l1| && forall k | 0 <= k < |l1| && k != i :: Below(hosts', l1[k]) == Below(hosts, l1[k])
    ensures DataRefs(hosts', l1, n) + Occ(Below(hosts, l1[i]), n) == DataRefs(hosts, l1, n) + Occ(Below(hosts', l1[i]), n)
  {
    var k := |l1| - 1;
    if i == k {
      DataRefsFrame(hosts, hosts', l1[..k], n);
    } else {
      DataRefsEdit(hosts, hosts', l1[..k], i, n);
    }
  }

  lemma {:induction false} DataRefsOne(hosts: seq<Cluster>, l1: seq<Entry>, i: nat, j: nat, n: nat)
    requires i < |l1| && j < |Below(hosts, l1[i])| && Below(hosts, l1[i])[j].off == n
    ensures 0 < DataRefs(hosts, l1, n)
  {
    if i < |l1| - 1 {
      DataRefsOne(hosts, l1[..|l1| - 1], i, j, n);
    } else {
      OccOne(Below(hosts, l1[i]), j, n);
    }
  }

  /** Two paths to a cluster are two references. */
  lemma {:induction false} DataRefsTwo(hosts: seq<Cluster>, l1: seq<Entry>, i: nat, j: nat, i': nat, j': nat, n: nat)
    requires i < |l1| && j < |Below(hosts, l1[i])| && Below(hosts, l1[i])[j].off == n
    requires i' < |l1| && j' < |Below(hosts, l1[i'])| && Below(hosts, l1[i'])[j'].off == n
    requires i < i' || (i == i' && j < j')
    ensures 2 <= DataRefs(hosts, l1, n)
  {
    var k := |l1| - 1;
    if i' < k {
      DataRefsTwo(hosts, l1[..k], i, j, i', j', n);
    } else if i < k {
      DataRefsOne(hosts, l1[..k], i, j, n);
      OccOne(Below(hosts, l1[k]), j', n);
    } else {
      OccTwo(Below(hosts, l1[k]), j, j', n);
    }
  }

  lemma {:induction false} DataRefsFind(hosts: seq<Cluster>, l1: seq<Entry>, n: nat) returns (i: nat, j: nat)
    requires 0 < DataRefs(hosts, l1, n)
    ensures i < |l1| && j < |Below(hosts, l1[i])| && Below(hosts, l1[i])[j].off == n
  {
    var k := |l1| - 1;
    if 0 < Occ(Below(hosts, l1[k]), n) {
      i := k;
      j := OccFind(Below(hosts, l1[k]), n);
    } else {
      i, j := DataRefsFind(hosts, l1[..k], n);
    }
  }

  // ----- well-formed maps -----

  ghost predicate GeoOk(g: Geo) {
    && 0 < g.per && 0 < g.l1First && g.version in {2, 3}
  }

  /** An L2 entry: unallocated, or a data cluster of full size. */
  ghost predicate EntryOk(g: Geo, hosts: seq<Cluster>, e: Entry) {
    && (e.off == 0 ==> !e.copied)
    && (e.off != 0 ==> e.off < |hosts| && hosts[e.off].Data? && |hosts[e.off].bytes| == ClusterBytes(g))
    && (g.version == 2 ==> !e.zero)
  }

  ghost predicate TableOk(g: Geo, hosts: seq<Cluster>, es: seq<Entry>) {
    |es| == g.per && forall j | 0 <= j < |es| :: EntryOk(g, hosts, es[j])
  }

  /** An L1 entry: empty, or an L2 table. */
  ghost predicate RootOk(g: Geo, hosts: seq<Cluster>, e: Entry) {
    && !e.zero
    && (e.off == 0 ==> e == NONE)
    && (e.off != 0 ==> e.off < |hosts| && hosts[e.off].Table? && TableOk(g, hosts, hosts[e.off].es))
  }

  ghost predicate TablesOk(g: Geo, m: Map) {
    && 0 < |m.hosts| && 0 < m.refFirst && 0 < m.refClusters
    && g.l1First + g.l1Clusters <= |m.hosts| && m.refFirst + m.refClusters <= |m.hosts|
    && |m.refTable| == Times(g.per, m.refClusters)
    && (forall i | 0 <= i < |m.refTable| :: m.refTable[i] < |m.hosts|)
    && forall i | 0 <= i < |m.l1| :: RootOk(g, m.hosts, m.l1[i])
  }

  /** Metadata aliases nothing: not itself, not an L2 table, not a data cluster. */
  ghost predicate NoAlias(g: Geo, m: Map) {
    forall n | 0 < n < |m.hosts| :: AloneAt(g, m, n)
  }

  predicate AloneAt(g: Geo, m: Map, n: nat) {
    MetaRefs(g, m, n) <= 1 && (MetaRefs(g, m, n) == 1 ==> Occ(m.l1, n) == 0 && DataRefs(m.hosts, m.l1, n) == 0)
  }

  ghost predicate MapOk(g: Geo, m: Map) {
    GeoOk(g) && TablesOk(g, m) && NoAlias(g, m)
  }

  // ----- what the guest reads -----

  function EntryOf(g: Geo, m: Map, c: nat): Entry
    requires 0 < g.per
  {
    var i := Quot(g.per, c);
    if i >= |m.l1| then NONE
    else
      var es, j := Below(m.hosts, m.l1[i]), c - Times(g.per, i);
      if j < |es| then es[j] else NONE
  }

  function GuestByte(g: Geo, m: Map, p: nat): Byte
    requires 0 < g.per
  {
    var c := Quot(ClusterBytes(g), p);
    var o, e := p - Times(ClusterBytes(g), c), EntryOf(g, m, c);
    if e.zero then 0
    else if e.off == 0 then if p < |g.parent| then g.parent[p] else 0
    else if e.off < |m.hosts| && m.hosts[e.off].Data? && o < |m.hosts[e.off].bytes| then m.hosts[e.off].bytes[o]
    else 0
  }

  function Guest(g: Geo, m: Map): (s: seq<Byte>)
    requires 0 < g.per
    ensures |s| == g.size
  {
    seq(g.size, p requires 0 <= p < g.size => GuestByte(g, m, p))
  }

  /** Two maps through which every guest cluster is read the same way. */
  ghost predicate SameView(g: Geo, m: Map, m': Map)
    requires 0 < g.per
  {
    forall c: nat :: SameCluster(g, m, m', c)
  }

  ghost predicate SameCluster(g: Geo, m: Map, m': Map, c: nat)
    requires 0 < g.per
  {
    var e, e' := EntryOf(g, m, c), EntryOf(g, m', c);
    && e'.off == e.off && e'.zero == e.zero
    && (e.off != 0 && !e.zero ==> e.off < |m.hosts| && e.off < |m'.hosts| && m'.hosts[e.off] == m.hosts[e.off])
  }

  lemma SameGuest(g: Geo, m: Map, m': Map)
    requires 0 < g.per && SameView(g, m, m')
    ensures Guest(g, m') == Guest(g, m)
  {
    hide EntryOf, Times, Quot;
    forall p | 0 <= p < g.size ensures GuestByte(g, m', p) == GuestByte(g, m, p) {
      assert SameCluster(g, m, m', Quot(ClusterBytes(g), p));
    }
  }

  /** An allocated guest cluster reaches a data cluster through its L1 entry. */
  lemma EntryReached(g: Geo, m: Map, c: nat)
    requires MapOk(g, m) && EntryOf(g, m, c).off != 0
    ensures var i, j := Quot(g.per, c), c - Times(g.per, Quot(g.per, c));
      i < |m.l1| && j < |Below(m.hosts, m.l1[i])| && Below(m.hosts, m.l1[i])[j] == EntryOf(g, m, c)
    ensures var e := EntryOf(g, m, c); EntryOk(g, m.hosts, e) && 0 < DataRefs(m.hosts, m.l1, e.off)
  {
    var i, j := Quot(g.per, c), c - Times(g.per, Quot(g.per, c));
    assert RootOk(g, m.hosts, m.l1[i]);
    DataRefsOne(m.hosts, m.l1, i, j, EntryOf(g, m, c).off);
  }
}
