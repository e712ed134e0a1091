/** When an image can grow: the clusters that an allocation takes besides its own, for refcount blocks and
    for larger refcount tables. */
module Qcow2Room {
  import opened Scale
  import opened Qcow2Map

  const MAX_CLUSTERS: nat := 16 * 1024 * 1024
  const MAX_REF_BYTES: nat := 8 * 1024 * 1024

  /** Refcount blocks that cover `n` clusters. */
  function BlocksOf(g: Geo, n: nat): nat
    requires 0 < g.per
  {
    Quot(PerBlock(g), n + PerBlock(g) - 1)
  }

  /** Those of the first `n` that are absent. */
  function Absent(table: seq<nat>, n: nat): nat {
    if n == 0 then 0 else Absent(table, n - 1) + if n - 1 < |table| && table[n - 1] != 0 then 0 else 1
  }

  /** `x` doubled `k` times. */
  function Doubled(x: nat, k: nat): nat
    decreases k
  {
    if k == 0 then x else Doubled(2 * x, k - 1)
  }

  /** Clusters of the tables that `k` doublings of a table of `c` clusters go through. */
  function Tables(c: nat, k: nat): nat
    decreases k
  {
    if k == 0 then 0 else 2 * c + Tables(2 * c, k - 1)
  }

  /** A file of `h` clusters holds the present ones, `n` more, the refcount blocks that `h` clusters lack
      and the tables of `k` doublings, which make the refcount table long enough for these blocks. */
  predicate Suffices(g: Geo, m: Map, n: nat, h: nat, k: nat)
    requires 0 < g.per
  {
    && BlocksOf(g, h) <= Doubled(|m.refTable|, k)
    && (k > 0 ==> 8 * Doubled(|m.refTable|, k) <= MAX_REF_BYTES)
    && |m.hosts| + n + Absent(m.refTable, BlocksOf(g, h)) + Tables(m.refClusters, k) <= h <= MAX_CLUSTERS
  }

  predicate SameSizes(m: Map, m': Map) {
    |m'.hosts| == |m.hosts| && m'.refTable == m.refTable && m'.refClusters == m.refClusters
  }

  /** There is room for `n` more clusters, whatever refcount metadata they need. */
  ghost predicate Room(g: Geo, m: Map, n: nat) {
    0 < g.per && exists h: nat, k: nat :: Suffices(g, m, n, h, k)
  }

  /** In particular when the present table has an entry for every block that could be needed. */
  lemma {:induction false} RoomInTable(g: Geo, m: Map, n: nat, h: nat)
    requires 0 < g.per && BlocksOf(g, h) <= |m.refTable| && |m.hosts| + n + |m.refTable| <= h <= MAX_CLUSTERS
    ensures Room(g, m, n)
  {
    AbsentBound(m.refTable, BlocksOf(g, h));
    assert Suffices(g, m, n, h, 0);
  }

  lemma {:induction false} AbsentBound(table: seq<nat>, n: nat)
    ensures Absent(table, n) <= n
  {
    if n > 0 {
      AbsentBound(table, n - 1);
    }
  }

  lemma {:induction false} RoomLess(g: Geo, m: Map, a: nat, b: nat)
    requires Room(g, m, b) && a <= b
    ensures Room(g, m, a)
  {
    var h: nat, k: nat :| Suffices(g, m, b, h, k);
    assert Suffices(g, m, a, h, k);
  }

  // ----- doubling -----

  lemma {:induction false} DoubledMore(x: nat, j: nat, k: nat)
    requires j <= k
    ensures Doubled(x, j) <= Doubled(x, k) && Doubled(Doubled(x, j), k - j) == Doubled(x, k)
    decreases j, k
  {
    if j > 0 {
      DoubledMore(2 * x, j - 1, k - 1);
    } else if k > 0 {
      DoubledMore(2 * x, 0, k - 1);
    }
  }

  lemma {:induction false} DoubledLast(x: nat, k: nat)
    ensures Doubled(x, k + 1) == 2 * Doubled(x, k)
    decreases k
  {
    if k > 0 {
      DoubledLast(2 * x, k - 1);
    }
  }

  /** One move to a table doubled `d` times takes no more than the tables in between and it. */
  lemma {:induction false} TablesFrom(c: nat, d: nat, k: nat)
    requires 0 < d <= k
    ensures Doubled(c, d) + Tables(Doubled(c, d), k - d) <= Tables(c, k)
    decreases d
  {
    if d > 1 {
      TablesFrom(2 * c, d - 1, k - 1);
    }
  }

  /** A table doubled until it has `required` entries is doubled no more often than one with as many. */
  lemma {:induction false} FewestDoublings(x: nat, d: nat, k: nat, required: nat)
    requires required <= Doubled(x, k) && (d > 0 ==> Doubled(x, d - 1) < required)
    ensures d <= k
  {
    if k < d {
      DoubledMore(x, k, d - 1);
    }
  }

  // ----- refcount blocks -----

  lemma {:induction false} BlocksMonotone(g: Geo, a: nat, b: nat)
    requires 0 < g.per && a <= b
    ensures BlocksOf(g, a) <= BlocksOf(g, b)
  {
    var rb := PerBlock(g);
    var p, q := BlocksOf(g, a), BlocksOf(g, b);
    if q < p {
      TimesMonotone(rb, q, p);
    }
  }

  lemma {:induction false} BlocksAre(g: Geo, limit: nat, n: nat)
    requires 0 < g.per && forall i: nat :: Times(PerBlock(g), i) < limit <==> i < n
    ensures n == BlocksOf(g, limit)
  {
    var rb, q := PerBlock(g), BlocksOf(g, limit);
    assert Times(rb, q) >= limit;
    if q > 0 {
      assert Times(rb, q) == Times(rb, q - 1) + rb;
      assert Times(rb, q - 1) < limit;
    }
  }

  lemma {:induction false} AbsentSame(a: seq<nat>, b: seq<nat>, n: nat)
    requires forall i | 0 <= i < n :: (i < |a| && a[i] != 0) <==> (i < |b| && b[i] != 0)
    ensures Absent(a, n) == Absent(b, n)
  {
    if n > 0 {
      AbsentSame(a, b, n - 1);
    }
  }

  lemma {:induction false} AbsentLinked(table: seq<nat>, i: nat, x: nat, n: nat)
    requires i < |table| && table[i] == 0 && x != 0
    ensures Absent(table[i := x], n) + (if i < n then 1 else 0) == Absent(table, n)
  {
    if n > 0 {
      AbsentLinked(table, i, x, n - 1);
    }
  }

  // ----- the steps of an allocation -----

  /** The refcount table is as long as before, or within its limit. */
  predicate TableFits(m: Map, m': Map) {
    |m'.refTable| == |m.refTable| || 8 * |m'.refTable| <= MAX_REF_BYTES
  }

  /** `m'` has room for `n` whenever `m` has, for all `n` from `p` on. */
  ghost predicate KeepsRoom(g: Geo, m: Map, m': Map, p: nat) {
    && TableFits(m, m')
    && forall n: nat | p <= n && Room(g, m, n) :: Room(g, m', n)
  }

  lemma {:induction false} KeepsTwice(g: Geo, m: Map, m1: Map, m2: Map, p: nat)
    requires KeepsRoom(g, m, m1, p) && KeepsRoom(g, m1, m2, p)
    ensures KeepsRoom(g, m, m2, p)
  {
    hide Room;
    forall n: nat | p <= n && Room(g, m, n) ensures Room(g, m2, n) {
      assert Room(g, m1, n);
    }
  }

  lemma {:induction false} KeepsSelf(g: Geo, m: Map, m': Map, p: nat)
    requires SameSizes(m, m')
    ensures KeepsRoom(g, m, m', p)
  {
    forall n: nat | p <= n && Room(g, m, n) ensures Room(g, m', n) {
      var h: nat, k: nat :| Suffices(g, m, n, h, k);
      assert Suffices(g, m', n, h, k);
    }
  }

  /** The table moves: it is doubled `d` times, until it has `required` entries. */
  ghost predicate TableMoved(m: Map, m': Map, d: nat, required: nat) {
    && |m.refTable| < required <= Doubled(|m.refTable|, d)
    && (d > 0 ==> Doubled(|m.refTable|, d - 1) < required)
    && |m'.hosts| == |m.hosts| + Doubled(m.refClusters, d) && m'.refClusters == Doubled(m.refClusters, d)
    && |m'.refTable| == Doubled(|m.refTable|, d) && m.refTable <= m'.refTable
    && forall i | |m.refTable| <= i < |m'.refTable| :: m'.refTable[i] == 0
  }

  lemma {:induction false} MovedSuffices(g: Geo, m: Map, m': Map, d: nat, required: nat, p: nat, n: nat, h: nat, k: nat)
    requires 0 < g.per && TableMoved(m, m', d, required) && required == BlocksOf(g, |m.hosts| + p) && p <= n
    requires Suffices(g, m, n, h, k)
    ensures 0 < d <= k && Suffices(g, m', n, h, k - d)
  {
    hide BlocksOf, Absent, Tables, Doubled;
    BlocksMonotone(g, |m.hosts| + p, h);
    FewestDoublings(|m.refTable|, d, k, required);
    DoubledNone(|m.refTable|);
    DoubledMore(|m.refTable|, d, k);
    TablesFrom(m.refClusters, d, k);
    AbsentSame(m.refTable, m'.refTable, BlocksOf(g, h));
  }

  lemma {:induction false} DoubledNone(x: nat)
    ensures Doubled(x, 0) == x
  {
  }

  lemma {:induction false} MovedKeepsRoom(g: Geo, m: Map, m': Map, d: nat, required: nat, p: nat)
    requires 0 < g.per && TableMoved(m, m', d, required) && required == BlocksOf(g, |m.hosts| + p) && 8 * |m'.refTable| <= MAX_REF_BYTES
    ensures KeepsRoom(g, m, m', p)
  {
    hide Suffices, TableMoved, BlocksOf;
    forall n: nat | p <= n && Room(g, m, n) ensures Room(g, m', n) {
      var h: nat, k: nat :| Suffices(g, m, n, h, k);
      MovedSuffices(g, m, m', d, required, p, n, h, k);
    }
  }

  /** With room the larger table is within the limits. */
  lemma {:induction false} MoveFits(g: Geo, m: Map, d: nat, required: nat, p: nat)
    requires 0 < g.per && required == BlocksOf(g, |m.hosts| + p) && |m.refTable| < required <= Doubled(|m.refTable|, d)
    requires d > 0 ==> Doubled(|m.refTable|, d - 1) < required
    ensures Room(g, m, p) ==>
      8 * Doubled(|m.refTable|, d) <= MAX_REF_BYTES && |m.hosts| + Doubled(m.refClusters, d) <= MAX_CLUSTERS
  {
    hide BlocksOf, Absent, Tables, Doubled;
    if Room(g, m, p) {
      var h: nat, k: nat :| Suffices(g, m, p, h, k);
      BlocksMonotone(g, |m.hosts| + p, h);
      FewestDoublings(|m.refTable|, d, k, required);
      DoubledNone(|m.refTable|);
      DoubledMore(|m.refTable|, d, k);
      TablesFrom(m.refClusters, d, k);
    }
  }

  /** An absent refcount block is appended and linked. */
  ghost predicate BlockLinked(m: Map, m': Map, i: nat) {
    && i < |m.refTable| == |m'.refTable| && m.refTable[i] == 0 && m'.refTable == m.refTable[i := m'.refTable[i]] && m'.refTable[i] != 0
    && |m'.hosts| == |m.hosts| + 1 && m'.refClusters == m.refClusters
  }

  lemma {:induction false} LinkedSuffices(g: Geo, m: Map, m': Map, i: nat, p: nat, n: nat, h: nat, k: nat)
    requires 0 < g.per && BlockLinked(m, m', i) && i < BlocksOf(g, |m.hosts| + p) && p <= n
    requires Suffices(g, m, n, h, k)
    ensures Suffices(g, m', n, h, k)
  {
    hide BlocksOf, Absent, Tables, Doubled;
    BlocksMonotone(g, |m.hosts| + p, h);
    AbsentLinked(m.refTable, i, m'.refTable[i], BlocksOf(g, h));
  }

  lemma {:induction false} LinkedKeepsRoom(g: Geo, m: Map, m': Map, i: nat, p: nat)
    requires 0 < g.per && BlockLinked(m, m', i) && i < BlocksOf(g, |m.hosts| + p)
    ensures KeepsRoom(g, m, m', p)
  {
    hide Suffices, BlocksOf;
    forall n: nat | p <= n && Room(g, m, n) ensures Room(g, m', n) {
      var h: nat, k: nat :| Suffices(g, m, n, h, k);
      LinkedSuffices(g, m, m', i, p, n, h, k);
    }
  }

  lemma {:induction false} LinkFits(g: Geo, m: Map, i: nat, p: nat)
    requires 0 < g.per && i < |m.refTable| && m.refTable[i] == 0 && i < BlocksOf(g, |m.hosts| + p)
    ensures Room(g, m, p) ==> |m.hosts| + 1 <= MAX_CLUSTERS
  {
    hide BlocksOf, Absent, Tables, Doubled;
    if Room(g, m, p) {
      var h: nat, k: nat :| Suffices(g, m, p, h, k);
      BlocksMonotone(g, |m.hosts| + p, h);
      AbsentLinked(m.refTable, i, 1, BlocksOf(g, h));
    }
  }

  lemma {:induction false} AppendFits(g: Geo, m: Map, n: nat)
    requires Room(g, m, n)
    ensures |m.hosts| + n <= MAX_CLUSTERS
  {
  }

  /** One of the clusters has been appended. */
  lemma {:induction false} AppendedRoom(g: Geo, m: Map, m': Map, n: nat)
    requires Room(g, m, n + 1) && |m'.hosts| == |m.hosts| + 1 && m'.refTable == m.refTable && m'.refClusters == m.refClusters
    ensures Room(g, m', n)
  {
    var h: nat, k: nat :| Suffices(g, m, n + 1, h, k);
    assert Suffices(g, m', n, h, k);
  }

  /** `m'` has room for `taken` clusters less than `m`. */
  ghost predicate TakesRoom(g: Geo, m: Map, m': Map, taken: nat) {
    && TableFits(m, m')
    && forall n: nat | Room(g, m, n + taken) :: Room(g, m', n)
  }

  lemma {:induction false} TakesTwice(g: Geo, m: Map, m1: Map, m2: Map, a: nat, b: nat)
    requires TakesRoom(g, m, m1, a) && TakesRoom(g, m1, m2, b)
    ensures TakesRoom(g, m, m2, a + b)
  {
    hide Room;
    forall n: nat | Room(g, m, n + (a + b)) ensures Room(g, m2, n) {
      assert Room(g, m, (n + b) + a);
      assert Room(g, m1, n + b);
    }
  }

  lemma {:induction false} TakesSelf(g: Geo, m: Map, m': Map)
    requires SameSizes(m, m')
    ensures TakesRoom(g, m, m', 0)
  {
    forall n: nat | Room(g, m, n + 0) ensures Room(g, m', n) {
      var h: nat, k: nat :| Suffices(g, m, n, h, k);
      assert Suffices(g, m', n, h, k);
    }
  }

  lemma {:induction false} TakesOne(g: Geo, m: Map, m1: Map, m2: Map)
    requires KeepsRoom(g, m, m1, 1)
    requires |m2.hosts| == |m1.hosts| + 1 && m2.refTable == m1.refTable && m2.refClusters == m1.refClusters
    ensures TakesRoom(g, m, m2, 1)
  {
    hide Room;
    forall n: nat | Room(g, m, n + 1) ensures Room(g, m2, n) {
      assert Room(g, m1, n + 1);
      AppendedRoom(g, m1, m2, n);
    }
  }

  lemma {:induction false} TakesAtMost(g: Geo, m: Map, m': Map, a: nat, b: nat)
    requires TakesRoom(g, m, m', a) && a <= b
    ensures TakesRoom(g, m, m', b)
  {
    hide Room;
    forall n: nat | Room(g, m, n + b) ensures Room(g, m', n) {
      RoomLess(g, m, n + a, n + b);
    }
  }
}
