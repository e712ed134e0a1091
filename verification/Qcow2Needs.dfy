/** How many clusters a write takes: one for every guest cluster that cannot be rewritten in place, and one
    for every L2 table that its L1 entry does not have to itself. */
module Qcow2Needs {
  import opened Scale
  import opened Qcow2Map
  import opened Qcow2State

  /** L1 entry `i` has no table, or shares it. */
  predicate NeedsTable(s: State, i: nat) {
    i < |s.m.l1| ==> var t := s.m.l1[i].off; t == 0 || t >= |s.refs| || s.refs[t] != 1
  }

  /** Guest cluster `c` has no data cluster, reads as zeros, or shares its data cluster. */
  predicate NeedsCluster(g: Geo, s: State, c: nat)
    requires 0 < g.per
  {
    var e := EntryOf(g, s.m, c);
    e.off == 0 || e.zero || e.off >= |s.refs| || s.refs[e.off] != 1
  }

  function One(b: bool): nat { if b then 1 else 0 }

  /** Clusters that writing guest cluster `c` takes. */
  function Need(g: Geo, s: State, c: nat): nat
    requires 0 < g.per
  {
    One(NeedsTable(s, Quot(g.per, c))) + One(NeedsCluster(g, s, c))
  }

  /** The first guest cluster of its L2 table. */
  predicate Leads(g: Geo, c: nat)
    requires 0 < g.per
  {
    c == Times(g.per, Quot(g.per, c))
  }

  /** Clusters that writing on from `c` to `end` takes, after the guest cluster before `c`. */
  function NeedRest(g: Geo, s: State, c: nat, end: nat): nat
    requires 0 < g.per
    decreases end - c
  {
    if c >= end then 0
    else One(Leads(g, c) && NeedsTable(s, Quot(g.per, c))) + One(NeedsCluster(g, s, c)) + NeedRest(g, s, c + 1, end)
  }

  /** Clusters that writing guest clusters `c` to `end` takes. */
  function NeedFrom(g: Geo, s: State, c: nat, end: nat): nat
    requires 0 < g.per
  {
    if c >= end then 0 else Need(g, s, c) + NeedRest(g, s, c + 1, end)
  }

  /** Clusters that writing `n` bytes at `pos` takes. */
  function WriteNeed(g: Geo, s: State, pos: nat, n: nat): nat
    requires 0 < g.per
  {
    if n == 0 then 0 else NeedFrom(g, s, Quot(ClusterBytes(g), pos), Quot(ClusterBytes(g), pos + n - 1) + 1)
  }

  /** In `s'` no table needs more than in `s`, and no guest cluster from `from` on. */
  ghost predicate Lighter(g: Geo, s: State, s': State, from: nat)
    requires 0 < g.per
  {
    && (forall c: nat | from <= c && NeedsCluster(g, s', c) :: NeedsCluster(g, s, c))
    && |s'.m.l1| == |s.m.l1| && forall i: nat | i < |s.m.l1| && NeedsTable(s', i) :: NeedsTable(s, i)
  }

  lemma LighterTwice(g: Geo, s: State, s1: State, s2: State, a: nat, b: nat)
    requires 0 < g.per && Lighter(g, s, s1, a) && Lighter(g, s1, s2, b) && a <= b
    ensures Lighter(g, s, s2, b)
  {
    hide NeedsCluster, NeedsTable;
    forall c: nat | b <= c && NeedsCluster(g, s2, c) ensures NeedsCluster(g, s, c) {
      assert NeedsCluster(g, s1, c);
    }
    forall i: nat | i < |s.m.l1| && NeedsTable(s2, i) ensures NeedsTable(s, i) {
      assert NeedsTable(s1, i);
    }
  }

  lemma LighterLess(g: Geo, s: State, s': State, a: nat, b: nat)
    requires 0 < g.per && Lighter(g, s, s', a) && a <= b
    ensures Lighter(g, s, s', b)
  {
    hide NeedsCluster, NeedsTable;
  }

  lemma {:induction false} RestLighter(g: Geo, s: State, s': State, c: nat, end: nat)
    requires 0 < g.per && Lighter(g, s, s', c)
    ensures NeedRest(g, s', c, end) <= NeedRest(g, s, c, end)
    decreases end - c
  {
    hide NeedsCluster, Quot, Times, Leads;
    if c < end {
      LighterLess(g, s, s', c, c + 1);
      RestLighter(g, s, s', c + 1, end);
      assert NeedsCluster(g, s', c) ==> NeedsCluster(g, s, c);
      assert NeedsTable(s', Quot(g.per, c)) ==> NeedsTable(s, Quot(g.per, c));
    }
  }

  /** Once guest cluster `c` is written, its table is private: the next one takes what was foreseen. */
  lemma FromLighter(g: Geo, s: State, s': State, c: nat, end: nat)
    requires 0 < g.per && Lighter(g, s, s', c + 1) && !NeedsTable(s', Quot(g.per, c))
    ensures NeedFrom(g, s', c + 1, end) <= NeedRest(g, s, c + 1, end)
  {
    hide NeedsCluster, Quot, Times;
    if c + 1 < end {
      LighterLess(g, s, s', c + 1, c + 2);
      RestLighter(g, s, s', c + 2, end);
      assert NeedsCluster(g, s', c + 1) ==> NeedsCluster(g, s, c + 1);
      assert NeedsTable(s', Quot(g.per, c + 1)) ==> NeedsTable(s, Quot(g.per, c + 1));
      if !Leads(g, c + 1) { SameTable(g, c); }
    }
  }

  lemma SameTable(g: Geo, c: nat)
    requires 0 < g.per && !Leads(g, c + 1)
    ensures Quot(g.per, c + 1) == Quot(g.per, c)
  {
    var q := Quot(g.per, c + 1);
    QuotUnique(g.per, q, c - Times(g.per, q));
  }
}
