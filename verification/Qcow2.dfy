/** The QCOW2 image as an object: growing refcount metadata that covers itself, copy-on-write of L2
    tables and data clusters, and the flush that makes the file acceptable to the next open. */
module Qcow2 {
  import opened Scale
  import opened Ledger
  import opened Qcow2Map
  import opened Qcow2State
  import opened Qcow2Steps
  import opened Qcow2Link
  import opened Qcow2Room
  import opened Qcow2Needs

  /** How the environment answers one read, write, truncate or fsync. A write that fails may have landed. */
  datatype Answer = Answer(ok: bool, landed: bool)

  datatype Outcome = Done | Error(code: Code)
  datatype Code = EIO | EFBIG | EINVAL | EROFS

  // ----- operations that leave the mapped clusters alone -----

  ghost predicate SameRow(m: Map, m': Map, i: nat)
    requires i < |m.l1|
  {
    var t := m.l1[i].off;
    && (t != 0 ==> t < |m.hosts| && t < |m'.hosts| && m'.hosts[t] == m.hosts[t])
    && forall j | 0 <= j < |Below(m.hosts, m.l1[i])| :: SameData(m, m', Below(m.hosts, m.l1[i])[j].off)
  }

  ghost predicate SameData(m: Map, m': Map, n: nat) {
    n != 0 ==> n < |m.hosts| && n < |m'.hosts| && m'.hosts[n] == m.hosts[n]
  }

  /** The tables and everything they reach are as they were. */
  ghost predicate SameMap(m: Map, m': Map) {
    m'.l1 == m.l1 && |m.hosts| <= |m'.hosts| && forall i | 0 <= i < |m.l1| :: SameRow(m, m', i)
  }

  lemma SameMapTwice(m: Map, m1: Map, m2: Map)
    requires SameMap(m, m1) && SameMap(m1, m2)
    ensures SameMap(m, m2)
  {
    forall i | 0 <= i < |m.l1| ensures SameRow(m, m2, i) {
      assert SameRow(m, m1, i) && SameRow(m1, m2, i);
      var es := Below(m.hosts, m.l1[i]);
      assert Below(m1.hosts, m1.l1[i]) == es;
      forall j | 0 <= j < |es| ensures SameData(m, m2, es[j].off) {
        assert SameData(m, m1, es[j].off) && SameData(m1, m2, es[j].off);
      }
    }
  }

  lemma SameMapSelf(g: Geo, m: Map)
    requires MapOk(g, m)
    ensures SameMap(m, m)
  {
    forall i | 0 <= i < |m.l1| ensures SameRow(m, m, i) {
      assert RootOk(g, m.hosts, m.l1[i]);
      forall j | 0 <= j < |Below(m.hosts, m.l1[i])| ensures SameData(m, m, Below(m.hosts, m.l1[i])[j].off) {
        DataInside(g, m, i, j);
      }
    }
  }

  /** Writing unmapped clusters, or appending, leaves the map the same. */
  lemma HostsKept(g: Geo, m: Map, m': Map)
    requires MapOk(g, m) && m'.l1 == m.l1 && |m.hosts| <= |m'.hosts|
    requires forall n: nat | 0 < n < |m.hosts| :: m'.hosts[n] == m.hosts[n] || Unmapped(m, n)
    ensures SameMap(m, m')
  {
    hide DataRefs, Occ, OccN, Times, MetaRefs, Below;
    forall i | 0 <= i < |m.l1| ensures SameRow(m, m', i) {
      assert RootOk(g, m.hosts, m.l1[i]);
      if m.l1[i].off != 0 && Unmapped(m, m.l1[i].off) { UnmappedEntry(m, m.l1[i].off, i, 0); }
      forall j | 0 <= j < |Below(m.hosts, m.l1[i])| ensures SameData(m, m', Below(m.hosts, m.l1[i])[j].off) {
        DataInside(g, m, i, j);
        var n := Below(m.hosts, m.l1[i])[j].off;
        if Unmapped(m, n) { UnmappedEntry(m, n, i, j); }
      }
    }
  }

  lemma SameMapView(g: Geo, m: Map, m': Map)
    requires MapOk(g, m) && SameMap(m, m')
    ensures SameView(g, m, m') && Guest(g, m') == Guest(g, m)
  {
    forall c: nat ensures SameCluster(g, m, m', c) {
      SameMapEntry(g, m, m', c);
    }
    SameGuest(g, m, m');
  }

  lemma SameMapEntry(g: Geo, m: Map, m': Map, c: nat)
    requires MapOk(g, m) && SameMap(m, m')
    ensures EntryOf(g, m', c) == EntryOf(g, m, c) && SameCluster(g, m, m', c)
  {
    hide DataRefs, Occ, OccN, Times, MetaRefs, Quot;
    var q := Quot(g.per, c);
    if q < |m.l1| {
      assert SameRow(m, m', q);
      assert Below(m'.hosts, m'.l1[q]) == Below(m.hosts, m.l1[q]);
      var j := c - Times(g.per, q);
      assert j < |Below(m.hosts, m.l1[q])| ==> SameData(m, m', Below(m.hosts, m.l1[q])[j].off);
    }
  }

  // ----- growth -----

  /** `count` clusters were appended, with a count of one and the given tag. */
  ghost predicate Grew(s: State, s': State, count: nat, tag: nat) {
    && s'.m == s.m.(hosts := s'.m.hosts) && s.m.hosts <= s'.m.hosts && |s'.m.hosts| == |s.m.hosts| + count
    && s.refs <= s'.refs && s.tags <= s'.tags && |s'.refs| == |s'.tags| == |s'.m.hosts|
    && (forall n: nat | |s.m.hosts| <= n < |s'.m.hosts| :: s'.refs[n] == 1 && s'.tags[n] == tag)
    && |s'.refDirty| == |s.refDirty| && s' == s.(m := s'.m, refs := s'.refs, tags := s'.tags, refDirty := s'.refDirty)
  }

  lemma GrewOne(g: Geo, s: State, s1: State, count: nat, tag: nat)
    requires 0 < g.per && Grew(s, s1, count, tag) && |s1.refs| == |s1.m.hosts|
    ensures Grew(s, Append(g, s1, tag), count + 1, tag)
  {
    hide Mark;
  }

  /** Nothing is pending past the end of the file. */
  ghost predicate PendInside(s: State, pend: multiset<nat>) {
    forall n: nat | |s.refs| <= n :: pend[n] == 0
  }

  lemma RunOneMore(pend: multiset<nat>, first: nat, count: nat)
    ensures (pend + Run(first, count)) + multiset{first + count} == pend + Run(first, count + 1)
  {
  }

  lemma GrewMap(g: Geo, s: State, s': State, count: nat, tag: nat)
    requires MapOk(g, s.m) && Grew(s, s', count, tag)
    ensures SameMap(s.m, s'.m)
    ensures forall n: nat | |s.m.hosts| <= n < |s'.m.hosts| :: Spare(g, s'.m, n)
  {
    hide DataRefs, Occ, OccN, Times, MetaRefs, Below, Expected, RootOk, NoAlias;
    HostsKept(g, s.m, s'.m);
    forall n: nat | |s.m.hosts| <= n < |s'.m.hosts| ensures Spare(g, s'.m, n) {
      ExpectedGrow(g, s.m, s'.m.hosts, n);
    }
  }

  // ----- the environment -----

  function At(answers: seq<Answer>, i: nat): Answer {
    if i < |answers| then answers[i] else Answer(true, true)
  }

  /** How many of the first `n` answers are failures. */
  function Failures(answers: seq<Answer>, n: nat): nat {
    if n == 0 then 0 else Failures(answers, n - 1) + if At(answers, n - 1).ok then 0 else 1
  }

  /** Nothing fails from question number `a` on, before number `b`. */
  ghost predicate Fine(answers: seq<Answer>, a: nat, b: nat) {
    a <= b && Failures(answers, a) == Failures(answers, b)
  }

  lemma {:induction false} FineMeans(answers: seq<Answer>, a: nat, b: nat)
    requires a <= b
    ensures Failures(answers, a) <= Failures(answers, b)
    ensures Fine(answers, a, b) <==> forall i | a <= i < b :: At(answers, i).ok
  {
    if a < b {
      FineMeans(answers, a, b - 1);
    }
  }

  /** Between the two numbers: the outcome is EIO exactly when the environment fails. */
  ghost predicate Told(answers: seq<Answer>, r: Outcome, a: nat, b: nat) {
    a <= b && Failures(answers, a) <= Failures(answers, b) && (r == Error(EIO) <==> !Fine(answers, a, b))
  }

  /** What was asked before one step did not fail: the step decides. */
  lemma ToldNext(answers: seq<Answer>, r: Outcome, a: nat, b: nat, c: nat)
    requires Fine(answers, a, b) && Told(answers, r, b, c)
    ensures Told(answers, r, a, c) && (r != Error(EIO) ==> Fine(answers, a, c))
  {
  }

  lemma ToldFine(answers: seq<Answer>, a: nat, b: nat)
    requires Told(answers, Done, a, b)
    ensures Fine(answers, a, b)
  {
  }

  /** A failure stays one. */
  lemma ToldStill(answers: seq<Answer>, a: nat, b: nat, c: nat)
    requires Told(answers, Error(EIO), a, b) && b <= c
    ensures Told(answers, Error(EIO), a, c)
  {
    FineMeans(answers, b, c);
  }

  /** Nothing has been asked. */
  lemma NotAsked(answers: seq<Answer>, a: nat)
    ensures Fine(answers, a, a)
  {
  }

  /** A step without failures tells whatever else happened. */
  lemma FineTells(answers: seq<Answer>, r: Outcome, a: nat, b: nat)
    requires Fine(answers, a, b) && r != Error(EIO)
    ensures Told(answers, r, a, b)
  {
  }

  /** What an operation between the two numbers may answer when it takes up to `n` clusters, besides those
      for refcount metadata: EIO when the environment fails, EFBIG when there is no room, or success. */
  ghost predicate Spends(answers: seq<Answer>, g: Geo, m: Map, m': Map, n: nat, r: Outcome, a: nat, b: nat) {
    && Told(answers, r, a, b)
    && (r.Error? ==> r.code == EIO || (r.code == EFBIG && !Room(g, m, n)))
    && (r.Done? ==> TakesRoom(g, m, m', n))
  }

  lemma SpendsNext(answers: seq<Answer>, g: Geo, m: Map, m1: Map, m2: Map, n1: nat, n2: nat, r: Outcome, a: nat, b: nat, c: nat)
    requires Spends(answers, g, m, m1, n1, Done, a, b) && Spends(answers, g, m1, m2, n2, r, b, c)
    ensures Spends(answers, g, m, m2, n1 + n2, r, a, c)
  {
    hide Room, TakesRoom;
    if r.Done? {
      TakesTwice(g, m, m1, m2, n1, n2);
    }
    TakesLeaves(g, m, m1, n1, n2);
  }

  lemma TakesLeaves(g: Geo, m: Map, m1: Map, n1: nat, n2: nat)
    requires TakesRoom(g, m, m1, n1)
    ensures Room(g, m, n1 + n2) ==> Room(g, m1, n2)
  {
    hide Room;
    assert n1 + n2 == n2 + n1;
  }

  /** Reads, writes and syncs take nothing. */
  lemma SpendsNothing(answers: seq<Answer>, g: Geo, m: Map, m': Map, r: Outcome, a: nat, b: nat)
    requires Told(answers, r, a, b) && (r.Error? ==> r == Error(EIO)) && (r.Done? ==> SameSizes(m, m'))
    ensures Spends(answers, g, m, m', 0, r, a, b)
  {
    hide Room, Told;
    if r.Done? {
      TakesSelf(g, m, m');
    }
  }

  lemma SpendsFlush(answers: seq<Answer>, g: Geo, m: Map, m': Map, r: Outcome, a: nat, b: nat)
    requires Told(answers, r, a, b) && (r.Error? ==> r == Error(EIO)) && (r.Done? ==> OnlyMeta(g, m, m'))
    ensures Spends(answers, g, m, m', 0, r, a, b)
  {
    hide Told, Spends, KeptHost;
    SpendsNothing(answers, g, m, m', r, a, b);
  }

  lemma SpendsEnsure(answers: seq<Answer>, g: Geo, m: Map, m': Map, r: Outcome, a: nat, b: nat)
    requires Told(answers, r, a, b) && r.Error? && (r.code == EIO || r.code == EFBIG) && (r.code == EFBIG ==> !Room(g, m, 1))
    ensures Spends(answers, g, m, m', 1, r, a, b)
  {
    hide Told, Room;
  }

  /** One cluster was appended after the refcount structure had been made to cover it. */
  lemma SpendsPlaced(answers: seq<Answer>, g: Geo, m: Map, m1: Map, m2: Map, r: Outcome, a: nat, b: nat)
    requires Told(answers, r, a, b) && (r.Error? ==> r.code == EIO || r.code == EFBIG) && KeepsRoom(g, m, m1, 1)
    requires r == Error(EFBIG) ==> |m1.hosts| + 1 > MAX_CLUSTERS
    requires r.Done? ==> |m2.hosts| == |m1.hosts| + 1 && m2.refTable == m1.refTable && m2.refClusters == m1.refClusters
    ensures Spends(answers, g, m, m2, 1, r, a, b)
  {
    hide Told, Room;
    if Room(g, m, 1) {
      AppendFits(g, m1, 1);
    }
    if r.Done? {
      TakesOne(g, m, m1, m2);
    }
  }

  /** Nothing was asked and nothing changed. */
  lemma SpendsSame(answers: seq<Answer>, g: Geo, m: Map, a: nat)
    ensures Spends(answers, g, m, m, 0, Done, a, a)
  {
    hide TakesRoom;
    TakesSelf(g, m, m);
  }

  lemma SpendsFailed(answers: seq<Answer>, g: Geo, m: Map, m': Map, n: nat, a: nat, b: nat)
    requires Told(answers, Error(EIO), a, b)
    ensures Spends(answers, g, m, m', n, Error(EIO), a, b)
  {
  }

  /** An operation after questions that took nothing. */
  lemma SpendsAfter(answers: seq<Answer>, g: Geo, m: Map, m': Map, n: nat, r: Outcome, a: nat, b: nat, c: nat)
    requires Fine(answers, a, b) && Spends(answers, g, m, m', n, r, b, c)
    ensures Spends(answers, g, m, m', n, r, a, c)
  {
    hide Room, TakesRoom;
  }

  /** A question after an operation fails. */
  lemma SpendsAfter2(answers: seq<Answer>, g: Geo, m: Map, m': Map, n: nat, n': nat, a: nat, b: nat, c: nat)
    requires Spends(answers, g, m, m', n, Done, a, b) && Told(answers, Error(EIO), b, c)
    ensures Spends(answers, g, m, m', n', Error(EIO), a, c)
  {
    hide Room, TakesRoom;
  }

  /** What a read answers. */
  lemma ReadTells(answers: seq<Answer>, r: Outcome, a: nat, b: nat)
    requires a <= b && r == if Fine(answers, a, b) then Done else Error(EIO)
    ensures Told(answers, r, a, b) && (r.Done? ==> Fine(answers, a, b))
  {
    FineMeans(answers, a, b);
  }

  lemma ToldExactly(answers: seq<Answer>, r: Outcome, a: nat, b: nat)
    requires Told(answers, r, a, b) && (r.Error? ==> r == Error(EIO))
    ensures a <= b && r == if Fine(answers, a, b) then Done else Error(EIO)
  {
  }

  lemma SpendsFits(answers: seq<Answer>, g: Geo, m: Map, m': Map, n: nat, a: nat, b: nat)
    requires Spends(answers, g, m, m', n, Done, a, b)
    ensures TableFits(m, m')
  {
    hide Told, Room;
  }

  lemma SpendsAtMost(answers: seq<Answer>, g: Geo, m: Map, m': Map, n: nat, n': nat, r: Outcome, a: nat, b: nat)
    requires Spends(answers, g, m, m', n, r, a, b) && n <= n'
    ensures Spends(answers, g, m, m', n', r, a, b)
  {
    hide Room, Told, TakesRoom;
    if Room(g, m, n') { RoomLess(g, m, n, n'); }
    if r.Done? { TakesAtMost(g, m, m', n, n'); }
  }

  // ----- dirty refcount blocks -----

  /** A block marked dirty exists, or the file reaches clusters that it will cover. */
  ghost predicate DirtyOk(g: Geo, s: State) {
    forall i: nat | i < |s.refDirty| && s.refDirty[i] ::
      i < |s.m.refTable| && (s.m.refTable[i] != 0 || Times(PerBlock(g), i) < |s.m.hosts|)
  }

  /** Every block marked dirty exists. */
  ghost predicate Linked(s: State) {
    forall i: nat | i < |s.refDirty| && s.refDirty[i] :: i < |s.m.refTable| && s.m.refTable[i] != 0
  }

  lemma LinkedDirty(g: Geo, s: State)
    requires Linked(s)
    ensures DirtyOk(g, s)
  {
  }

  lemma DirtyCovered(g: Geo, s: State, limit: nat)
    requires 0 < g.per && DirtyOk(g, s) && Covered(g, s, limit) && |s.m.hosts| <= limit
    ensures Linked(s)
  {
    hide Times;
    forall i: nat | i < |s.refDirty| && s.refDirty[i]
      ensures i < |s.m.refTable| && s.m.refTable[i] != 0
    {
      assert i < |s.m.refTable| && (s.m.refTable[i] != 0 || Times(PerBlock(g), i) < limit);
    }
  }

  lemma DirtyAppend(g: Geo, s: State, tag: nat, pend: multiset<nat>)
    requires DirtyOk(g, s) && Kept(g, s, pend) && 0 < g.per
    ensures DirtyOk(g, Append(g, s, tag))
  {
    KeptSizes(g, s, pend);
    hide Times, Quot, Kept;
  }

  lemma DirtyDrop(g: Geo, s: State, n: nat, pend: multiset<nat>)
    requires DirtyOk(g, s) && Kept(g, s, pend) && 0 < g.per && n < |s.refs| && 0 < s.refs[n] && |s.tags| == |s.refs|
    ensures DirtyOk(g, Drop(g, s, n))
  {
    KeptSizes(g, s, pend);
    hide Times, Quot, Kept;
  }

  lemma DirtyMove(g: Geo, s: State, off: nat, clusters: nat, added: nat)
    requires DirtyOk(g, s) && |s.m.refTable| == |s.refDirty|
    ensures DirtyOk(g, MoveTable(g, s, off, clusters, added))
  {
    hide Times;
    var s' := MoveTable(g, s, off, clusters, added);
    forall i: nat | i < |s'.refDirty| && s'.refDirty[i]
      ensures i < |s'.m.refTable| && (s'.m.refTable[i] != 0 || Times(PerBlock(g), i) < |s'.m.hosts|)
    {
      assert i < |s.refDirty| && s.refDirty[i];
    }
  }

  lemma DirtyLink(g: Geo, s: State, i: nat, off: nat)
    requires DirtyOk(g, s) && i < |s.m.refTable| == |s.refDirty| && 0 < off
    ensures DirtyOk(g, LinkBlock(s, i, off))
  {
    hide Times;
  }

  lemma GrewSizes(s: State, s': State, count: nat, tag: nat)
    requires Grew(s, s', count, tag)
    ensures |s'.m.hosts| == |s.m.hosts| + count && s'.m.refTable == s.m.refTable && s'.m.refClusters == s.m.refClusters
    ensures |s'.refDirty| == |s.refDirty|
  {
  }

  /** Nothing less is possible than before. */
  lemma KeptRoom(g: Geo, m: Map, m': Map, p: nat)
    requires KeepsRoom(g, m, m', p)
    ensures Room(g, m, p) ==> Room(g, m', p)
  {
    hide Room;
  }

  class Qcow {
    const g: Geo
    const writable: bool
    var hosts: seq<Cluster>
    var l1: seq<Entry>
    var refTable: seq<nat>
    var refFirst: nat
    var refClusters: nat
    var refs: seq<nat>
    var tags: seq<nat>
    var refDirty: seq<bool>
    var tableDirty: bool
    var tableMoved: bool
    var changed: bool
    var failed: bool
    var hdrFirst: nat         // on disk: the refcount table the header names
    var hdrClusters: nat
    var hdrDirty: bool        // on disk: the incompatible dirty bit of version 3
    var diskL1: seq<Entry>    // on disk: the L1 table
    const answers: seq<Answer>  // the environment: any sequence of answers, then no failures
    var tick: nat             // how often it has been asked

    constructor (g: Geo, writable: bool, s: State, answers: seq<Answer>)
      ensures this.g == g && this.writable == writable && St() == s && !changed && !failed && !hdrDirty
      ensures this.answers == answers
    {
      this.g, this.writable, this.answers, tick := g, writable, answers, 0;
      hosts, l1, refTable, refFirst, refClusters := s.m.hosts, s.m.l1, s.m.refTable, s.m.refFirst, s.m.refClusters;
      refs, tags, refDirty := s.refs, s.tags, s.refDirty;
      tableDirty, tableMoved, changed, failed := s.tableDirty, s.tableMoved, false, false;
      hdrFirst, hdrClusters, hdrDirty, diskL1 := s.hdrFirst, s.hdrClusters, false, s.diskL1;
    }

    function M(): Map
      reads this
    {
      Map(hosts, l1, refTable, refFirst, refClusters)
    }

    function St(): State
      reads this
    {
      State(M(), refs, tags, refDirty, tableDirty, tableMoved, hdrFirst, hdrClusters, diskL1)
    }

    /** A host write, truncate or fsync may fail at any time; a failure is latched. */
    method Io() returns (ok: bool)
      modifies this`failed, this`tick
      ensures if ok then failed == old(failed) else failed
      ensures tick == old(tick) + 1 && ok == At(answers, old(tick)).ok
      ensures Told(answers, if ok then Done else Error(EIO), old(tick), tick)
    {
      ok := At(answers, tick).ok;
      tick := tick + 1;
      if !ok {
        failed := true;
      }
    }

    /** A host read may fail too, but that alone is not latched. */
    method Fetch() returns (ok: bool)
      modifies this`tick
      ensures tick == old(tick) + 1 && Told(answers, if ok then Done else Error(EIO), old(tick), tick)
    {
      ok := At(answers, tick).ok;
      tick := tick + 1;
    }

    /** One more counted cluster. */
    method AppendOne(tag: nat)
      requires 0 < g.per
      modifies this`hosts, this`refs, this`tags, this`refDirty
      ensures St() == Append(g, old(St()), tag)
    {
      hide Append, Mark;
      AppendIs(g, St(), tag);
      refDirty := Mark(g, refDirty, |refs|);
      hosts, refs, tags := hosts + [Plain], refs + [1], tags + [tag];
    }

    /** `append_hosts`. */
    method AppendHosts(count: nat, tag: nat, ghost pend: multiset<nat>) returns (r: Outcome, off: nat)
      requires Kept(g, St(), pend) && PendInside(St(), pend) && DirtyOk(g, St())
      modifies this`hosts, this`refs, this`tags, this`refDirty, this`failed, this`tick
      ensures off == old(|hosts|)
      ensures Told(answers, r, old(tick), tick) && (r.Error? ==> r.code == EIO || r.code == EFBIG)
      ensures r == Error(EFBIG) <==> off + count > MAX_CLUSTERS
      ensures r.Done? ==> DirtyOk(g, St())
      ensures r.Done? ==>
        && Kept(g, St(), pend + Run(off, count)) && PendInside(St(), pend + Run(off, count))
        && Grew(old(St()), St(), count, tag) && off + count <= MAX_CLUSTERS && failed == old(failed)
    {
      hide Fine, Told, Kept, Append, Mark, Run, PendInside, Grew, DirtyOk, Appended;
      off := |hosts|;
      NotAsked(answers, tick);
      if count > MAX_CLUSTERS - off {
        FineTells(answers, Error(EFBIG), tick, tick);
        return Error(EFBIG), off;
      }
      var ok := Io();
      if !ok {
        return Error(EIO), off;
      }
      ToldNext(answers, Done, old(tick), old(tick), tick);
      ghost var s0 := St();
      AppendStart(g, s0, pend, tag);
      AppendedFirst(g, s0, pend, tag);
      for i := 0 to count
        invariant Appended(g, s0, St(), pend, i, tag) && 0 < g.per
        modifies this`hosts, this`refs, this`tags, this`refDirty
      {
        ghost var s1 := St();
        AppendedStep(g, s0, s1, pend, i, tag);
        AppendOne(tag);
      }
      AppendedMeans(g, s0, St(), pend, count, tag);
      FineTells(answers, Done, old(tick), tick);
      return Done, off;
    }

    /** Clusters that `limit` clusters need in the refcount structure: one block per `4 * per`. */
    method BlocksFor(limit: nat) returns (n: nat)
      requires 0 < g.per
      ensures forall i: nat :: Times(PerBlock(g), i) < limit <==> i < n
    {
      var rb := 4 * g.per;
      QuotIsDivision(rb, limit + rb - 1);
      n := (limit + rb - 1) / rb;
      forall i: nat ensures Times(PerBlock(g), i) < limit <==> i < n {
        if i < n { TimesMonotone(rb, i, n); } else if n < i { TimesMonotone(rb, n, i); }
      }
    }

    /** `ref_entries *= 2` until the table is large enough. */
    method DoubleEntries(required: nat) returns (entries: nat, clusters: nat, ghost d: nat)
      requires 0 < g.per && |refTable| == Times(g.per, refClusters) && 0 < refClusters
      ensures entries == Doubled(|refTable|, d) && clusters == Doubled(refClusters, d)
      ensures d > 0 ==> Doubled(|refTable|, d - 1) < required
      ensures required <= entries && |refTable| <= entries && entries == Times(g.per, clusters) && refClusters <= clusters
    {
      entries, clusters, d := |refTable|, refClusters, 0;
      TimesMonotone(g.per, 0, refClusters);
      while entries < required
        invariant 0 < entries && entries == Times(g.per, clusters) && |refTable| <= entries && refClusters <= clusters
        invariant entries == Doubled(|refTable|, d) && clusters == Doubled(refClusters, d)
        invariant d > 0 ==> Doubled(|refTable|, d - 1) < required
        decreases required - entries
      {
        TimesAdd(g.per, clusters, clusters);
        DoubledLast(|refTable|, d);
        DoubledLast(refClusters, d);
        entries, clusters, d := entries * 2, clusters * 2, d + 1;
      }
    }

    /** Drops the references of the old refcount table. */
    method DropRun(first: nat, count: nat, ghost pend: multiset<nat>)
      requires DirtyOk(g, St())
      requires Kept(g, St(), pend + Run(first, count)) && 0 < first && first + count <= |hosts|
      requires forall n: nat | first <= n < first + count :: Expected(g, M(), n) == 0 && pend[n] == 0
      modifies this`refs, this`tags, this`refDirty
      ensures DirtyOk(g, St())
      ensures Kept(g, St(), pend) && M() == old(M()) && |refs| == old(|refs|)
    {
      hide Kept, Mark, Expected, Run, DirtyOk;
      RunEmpty(pend, first);
      KeptSizes(g, St(), pend + Run(first, count));
      for i := 0 to count
        invariant DirtyOk(g, St())
        invariant Kept(g, St(), pend + Run(first + i, count - i)) && M() == old(M()) && |refs| == old(|refs|)
      {
        ghost var s := St();
        var n := first + i;
        DropOld(g, s, n, first + i, count - i, pend);
        DirtyDrop(g, s, n, pend + Run(first + i, count - i));
        CountDown(n);
      }
      RunEmpty(pend, first + count);
    }

    /** A longer table at `off` takes the place of the present one. */
    method SetTable(off: nat, clusters: nat, added: nat)
      requires |refTable| == |refDirty|
      modifies this`refTable, this`refDirty, this`refFirst, this`refClusters, this`tableDirty, this`tableMoved
      ensures St() == MoveTable(g, old(St()), off, clusters, added)
      ensures refTable == old(refTable) + seq(added, _ => 0) && refClusters == clusters
    {
      refTable, refDirty := refTable + seq(added, _ => 0), refDirty + seq(added, _ => false);
      refFirst, refClusters, tableDirty, tableMoved := off, clusters, true, true;
    }

    /** Appends a larger refcount table and makes it current; the old one is still counted. */
    method MoveTo(entries: nat, clusters: nat, ghost pend: multiset<nat>) returns (r: Outcome)
      requires DirtyOk(g, St())
      requires Kept(g, St(), pend) && PendInside(St(), pend) && (forall n: nat | refFirst <= n < refFirst + refClusters :: pend[n] == 0)
      requires |refTable| <= entries == Times(g.per, clusters) && 0 < clusters
      modifies this`hosts, this`refs, this`tags, this`refDirty, this`failed, this`refTable, this`refFirst, this`refClusters,
        this`tableDirty, this`tableMoved, this`tick
      ensures Told(answers, r, old(tick), tick) && (r.Error? ==> r.code == EIO || r.code == EFBIG)
      ensures r == Error(EFBIG) <==> old(|hosts|) + clusters > MAX_CLUSTERS
      ensures r.Done? ==> DirtyOk(g, St())
      ensures r.Done? ==>
        && |hosts| == old(|hosts|) + clusters && refClusters == clusters
        && refTable == old(refTable) + seq(entries - old(|refTable|), _ => 0)
      ensures r.Done? ==>
        && Kept(g, St(), pend + Run(old(refFirst), old(refClusters))) && failed == old(failed)
        && old(refFirst + refClusters <= |hosts|) && 0 < old(refFirst)
        && (forall n: nat | old(refFirst) <= n < old(refFirst + refClusters) :: Expected(g, M(), n) == 0 && pend[n] == 0)
        && Moved(old(M()), M(), pend) && |refs| == |hosts| <= MAX_CLUSTERS
    {
      hide Fine, Told, Kept, Mark, Expected, Run, Grew, Tracked, SameMap, PendInside, Moved, Times, DirtyOk;
      ghost var s0 := St();
      KeptSizes(g, s0, pend);
      var off;
      r, off := AppendHosts(clusters, META, pend);
      if r.Error? {
        return;
      }
      ghost var s1 := St();
      var added := entries - |refTable|;
      TableIsAt(g, s0, s1, off, clusters, added, pend);
      SetTable(off, clusters, added);
    }

    /** The refcount table moves to new clusters, doubled until it covers `required` blocks. */
    method Relocate(required: nat, ghost pend: multiset<nat>, ghost pending: nat) returns (r: Outcome)
      requires DirtyOk(g, St()) && 0 < g.per && |refTable| < required == BlocksOf(g, |hosts| + pending)
      requires Kept(g, St(), pend) && PendInside(St(), pend) && (forall n: nat | refFirst <= n < refFirst + refClusters :: pend[n] == 0)
      modifies this`hosts, this`refs, this`tags, this`refDirty, this`failed, this`refTable, this`refFirst, this`refClusters,
        this`tableDirty, this`tableMoved, this`tick
      ensures Told(answers, r, old(tick), tick) && (r.Error? ==> r.code == EIO || r.code == EFBIG)
      ensures r == Error(EFBIG) ==> !old(Room(g, M(), pending))
      ensures r.Done? ==> DirtyOk(g, St()) && KeepsRoom(g, old(M()), M(), pending)
      ensures r.Done? ==>
        && Kept(g, St(), pend) && PendInside(St(), pend) && Moved(old(M()), M(), pend)
        && |hosts| <= MAX_CLUSTERS && failed == old(failed)
    {
      hide Fine, Told, Kept, Mark, Expected, Run, Tracked, SameMap, Times, DirtyOk, Room, KeepsRoom, Doubled, BlocksOf;
      ghost var m := M();
      KeptSizes(g, St(), pend);
      var entries, clusters; ghost var d;
      entries, clusters, d := DoubleEntries(required);
      MoveFits(g, m, d, required, pending);
      NotAsked(answers, tick);
      if entries * 8 > MAX_REF_BYTES {
        FineTells(answers, Error(EFBIG), tick, tick);
        return Error(EFBIG);
      }
      var first, count := refFirst, refClusters;
      r := MoveTo(entries, clusters, pend);
      if r.Done? {
        DropRun(first, count, pend);
        KeptSizes(g, St(), pend);
        assert TableMoved(m, M(), d, required);
        MovedKeepsRoom(g, m, M(), d, required, pending);
      }
    }

    /** Appends one refcount block and links it as block `i`. */
    method LinkOne(i: nat, ghost pend: multiset<nat>) returns (r: Outcome)
      requires DirtyOk(g, St())
      requires Kept(g, St(), pend) && PendInside(St(), pend) && i < |refTable| && refTable[i] == 0
      modifies this`hosts, this`refs, this`tags, this`refDirty, this`failed, this`refTable, this`tableDirty, this`tick
      ensures Told(answers, r, old(tick), tick) && (r.Error? ==> r.code == EIO || r.code == EFBIG)
      ensures r == Error(EFBIG) <==> old(|hosts|) + 1 > MAX_CLUSTERS
      ensures r.Done? ==> DirtyOk(g, St()) && BlockLinked(old(M()), M(), i)
      ensures r.Done? ==>
        && Kept(g, St(), pend) && PendInside(St(), pend) && SameMap(old(M()), M())
        && old(|hosts|) < |hosts| <= MAX_CLUSTERS && failed == old(failed)
        && |refTable| == old(|refTable|) && refTable == old(refTable)[i := refTable[i]] && refTable[i] != 0
    {
      hide Fine, Told, Kept, Mark, Expected, Run, Grew, Tracked, SameMap, PendInside, Times, DirtyOk;
      ghost var s0 := St();
      KeptSizes(g, s0, pend);
      var off;
      r, off := AppendHosts(1, META, pend);
      if r.Error? {
        return;
      }
      ghost var s1 := St();
      LinkReady(g, s0, s1, off, pend);
      GrewSizes(s0, s1, 1, META);
      DirtyLink(g, s1, i, off);
      refTable, refDirty, tableDirty := refTable[i := off], refDirty[i := true], true;
      assert St() == LinkBlock(s1, i, off);
      LinkKeeps(g, s1, i, off, pend);
      LinkSame(g, s0, s1, St(), pend);
    }

    /** Allocates the absent refcount blocks below `required`, including those that cover themselves. */
    method LinkMissing(required: nat, ghost pend: multiset<nat>, ghost pending: nat) returns (r: Outcome)
      requires DirtyOk(g, St()) && 0 < g.per && required == BlocksOf(g, |hosts| + pending)
      requires Kept(g, St(), pend) && PendInside(St(), pend) && required <= |refTable| && |hosts| <= MAX_CLUSTERS
      modifies this`hosts, this`refs, this`tags, this`refDirty, this`failed, this`refTable, this`tableDirty, this`tick
      ensures Told(answers, r, old(tick), tick) && (r.Error? ==> r.code == EIO || r.code == EFBIG)
      ensures r == Error(EFBIG) ==> !old(Room(g, M(), pending))
      ensures r.Done? ==> DirtyOk(g, St()) && KeepsRoom(g, old(M()), M(), pending)
      ensures r.Done? ==>
        && Kept(g, St(), pend) && PendInside(St(), pend) && SameMap(old(M()), M())
        && old(|hosts|) <= |hosts| <= MAX_CLUSTERS && failed == old(failed)
        && |refTable| == old(|refTable|) && (forall i | 0 <= i < required :: refTable[i] != 0)
    {
      hide Fine, Told, Kept, Mark, Expected, Run, Tracked, SameMap, PendInside, Times, DirtyOk, Room, KeepsRoom, BlocksOf;
      ghost var m := M();
      KeptSizes(g, St(), pend);
      SameMapSelf(g, m);
      KeepsSelf(g, m, m, pending);
      NotAsked(answers, tick);
      for i := 0 to required
        invariant Kept(g, St(), pend) && PendInside(St(), pend) && SameMap(m, M())
        invariant old(|hosts|) <= |hosts| <= MAX_CLUSTERS && failed == old(failed)
        invariant DirtyOk(g, St()) && KeepsRoom(g, m, M(), pending) && required <= BlocksOf(g, |hosts| + pending)
        invariant Fine(answers, old(tick), tick)
        invariant |refTable| == old(|refTable|) && forall k | 0 <= k < i :: refTable[k] != 0
      {
        if refTable[i] == 0 {
          ghost var m1, before := M(), tick;
          LinkFits(g, m1, i, pending);
          r := LinkOne(i, pend);
          ToldNext(answers, r, old(tick), before, tick);
          if r.Error? {
            KeptRoom(g, m, m1, pending);
            return;
          }
          LinkedKeepsRoom(g, m1, M(), i, pending);
          KeepsTwice(g, m, m1, M(), pending);
          BlocksMonotone(g, |m1.hosts| + pending, |hosts| + pending);
          SameMapTwice(m, m1, M());
        }
      }
      FineTells(answers, Done, old(tick), tick);
      return Done;
    }

    /** One turn of `ensure_refcounts`, the last or one that appends a cluster. */
    method EnsureRound(pending: nat, ghost pend: multiset<nat>) returns (r: Outcome, last: bool)
      requires DirtyOk(g, St()) && 0 < g.per
      requires Kept(g, St(), pend) && PendInside(St(), pend) && |hosts| <= MAX_CLUSTERS
      requires forall n: nat | refFirst <= n < refFirst + refClusters :: pend[n] == 0
      modifies this`hosts, this`refs, this`tags, this`refDirty, this`failed, this`refTable, this`refFirst, this`refClusters,
        this`tableDirty, this`tableMoved, this`tick
      ensures Told(answers, r, old(tick), tick) && (r.Error? ==> r.code == EIO || r.code == EFBIG)
      ensures r == Error(EFBIG) ==> !old(Room(g, M(), pending))
      ensures r.Done? ==> DirtyOk(g, St()) && KeepsRoom(g, old(M()), M(), pending) && failed == old(failed)
      ensures r.Done? ==>
        && Kept(g, St(), pend) && PendInside(St(), pend) && SameMap(old(M()), M()) && |hosts| <= MAX_CLUSTERS
        && forall n: nat | refFirst <= n < refFirst + refClusters :: pend[n] == 0
      ensures r.Done? ==> if last then Linked(St()) && Covered(g, St(), |hosts| + pending) else old(|hosts|) < |hosts|
    {
      hide Fine, Told, Kept, Mark, Expected, Run, Tracked, SameMap, PendInside, Times, Covered, RefsCovered, DirtyOk, Linked,
        Room, KeepsRoom, BlocksOf;
      var before := |hosts| + pending;
      var required := BlocksFor(before);
      BlocksAre(g, before, required);
      last := false;
      if required > |refTable| {
        r := Relocate(required, pend, pending);
        return;
      }
      r := LinkMissing(required, pend, pending);
      if r.Error? {
        return;
      }
      var again := BlocksFor(|hosts| + pending);
      if again == required {
        CoveredNow(g, St(), |hosts| + pending, required);
        DirtyCovered(g, St(), |hosts| + pending);
        last := true;
      } else {
        BlocksGrew(PerBlock(g), before, required, |hosts| + pending, again);
      }
    }

    /** `ensure_refcounts`: grows the refcount structure until it covers `pending` more clusters and
        itself. It terminates because every round but the last appends a cluster. */
    method EnsureRefcounts(pending: nat, ghost pend: multiset<nat>) returns (r: Outcome)
      requires DirtyOk(g, St())
      requires Kept(g, St(), pend) && PendInside(St(), pend) && |hosts| <= MAX_CLUSTERS
      requires forall n: nat | refFirst <= n < refFirst + refClusters :: pend[n] == 0
      modifies this`hosts, this`refs, this`tags, this`refDirty, this`failed, this`refTable, this`refFirst, this`refClusters,
        this`tableDirty, this`tableMoved, this`tick
      ensures Told(answers, r, old(tick), tick) && (r.Error? ==> r.code == EIO || r.code == EFBIG)
      ensures r == Error(EFBIG) ==> !old(Room(g, M(), pending))
      ensures r.Done? ==> Linked(St()) && KeepsRoom(g, old(M()), M(), pending)
      ensures r.Done? ==>
        && Kept(g, St(), pend) && PendInside(St(), pend) && SameMap(old(M()), M())
        && Covered(g, St(), |hosts| + pending) && |hosts| <= MAX_CLUSTERS
        && (forall n: nat | refFirst <= n < refFirst + refClusters :: pend[n] == 0)
        && failed == old(failed)
    {
      hide Fine, Told, Kept, Mark, Expected, Run, Tracked, SameMap, PendInside, Times, Covered, RefsCovered, DirtyOk, Linked,
        Room, KeepsRoom, BlocksOf;
      ghost var m := M();
      KeptSizes(g, St(), pend);
      SameMapSelf(g, m);
      KeepsSelf(g, m, m, pending);
      NotAsked(answers, tick);
      r := Done;
      var last := false;
      while !last
        invariant if last then Linked(St()) && Covered(g, St(), |hosts| + pending) else DirtyOk(g, St())
        invariant Kept(g, St(), pend) && PendInside(St(), pend) && SameMap(m, M())
        invariant forall n: nat | refFirst <= n < refFirst + refClusters :: pend[n] == 0
        invariant KeepsRoom(g, m, M(), pending) && Fine(answers, old(tick), tick) && r == Done
        invariant |hosts| <= MAX_CLUSTERS && failed == old(failed)
        decreases if last then 0 else 1, MAX_CLUSTERS - |hosts|
      {
        ghost var m1, before := M(), tick;
        KeptRoom(g, m, m1, pending);
        r, last := EnsureRound(pending, pend);
        ToldNext(answers, r, old(tick), before, tick);
        if r.Error? {
          return;
        }
        SameMapTwice(m, m1, M());
        KeepsTwice(g, m, m1, M(), pending);
      }
      FineTells(answers, Done, old(tick), tick);
    }

    method SetHost(n: nat, c: Cluster)
      requires n < |hosts|
      modifies this`hosts
      ensures St() == old(St()).(m := old(M()).(hosts := old(hosts)[n := c]))
    {
      hosts := hosts[n := c];
    }

    method SetBlock(i: nat)
      requires i < |refTable| == |refDirty| && refTable[i] < |hosts|
      modifies this`hosts, this`refDirty
      ensures St() == FlushBlock(g, old(St()), i)
    {
      hide Slice;
      hosts, refDirty := hosts[refTable[i] := Counts(Slice(g, refs, i))], refDirty[i := false];
    }

    /** Writes the refcount blocks marked dirty. */
    method FlushBlocks(ghost pend: multiset<nat>) returns (r: Outcome)
      requires Core(g, St(), pend)
      modifies this`hosts, this`refDirty, this`failed, this`tick
      ensures Told(answers, r, old(tick), tick) && (r.Error? ==> r.code == EIO || r.code == EINVAL)
      ensures r == Error(EINVAL) ==> !old(Linked(St()))
      ensures r.Done? ==>
        && Core(g, St(), pend) && OnlyMeta(g, old(M()), M()) && failed == old(failed)
        && forall i | 0 <= i < |refDirty| :: !refDirty[i]
    {
      hide Fine, Told, Core, Expected, Tracked, OnlyMeta, Times, Slice;
      ghost var m := M();
      CoreSizes(g, St(), pend);
      OnlyMetaSelf(g, m);
      NotAsked(answers, tick);
      for i := 0 to |refTable|
        invariant Core(g, St(), pend) && OnlyMeta(g, m, M()) && failed == old(failed)
        invariant |refDirty| == |refTable| && forall k | 0 <= k < i :: !refDirty[k]
        invariant forall k | i <= k < |refTable| :: refDirty[k] == old(refDirty)[k]
        invariant Fine(answers, old(tick), tick)
      {
        if refDirty[i] {
          if refTable[i] == 0 {
            FineTells(answers, Error(EINVAL), old(tick), tick);
            return Error(EINVAL);
          }
          ghost var before := tick;
          var ok := Io();
          ToldNext(answers, if ok then Done else Error(EIO), old(tick), before, tick);
          if !ok {
            return Error(EIO);
          }
          ghost var s1 := St();
          FlushBlockKeeps(g, s1, i, pend);
          BlockMeta(g, m, s1, i, Counts(Slice(g, refs, i)), pend);
          SetBlock(i);
        }
      }
      FineTells(answers, Done, old(tick), tick);
      return Done;
    }

    /** Writes the refcount table if it changed. */
    method FlushTable(ghost pend: multiset<nat>) returns (r: Outcome)
      requires Core(g, St(), pend)
      modifies this`hosts, this`tableDirty, this`failed, this`tick
      ensures Told(answers, r, old(tick), tick) && (r.Error? ==> r == Error(EIO))
      ensures r.Done? ==>
        && Core(g, St(), pend) && OnlyMeta(g, old(M()), M()) && failed == old(failed) && !tableDirty
    {
      hide Fine, Told, Core, Expected, OnlyMeta, Times, Slice, Chunk;
      ghost var m := M();
      CoreSizes(g, St(), pend);
      OnlyMetaSelf(g, m);
      NotAsked(answers, tick);
      FineTells(answers, Done, tick, tick);
      if !tableDirty {
        return Done;
      }
      for k := 0 to refClusters
        invariant Core(g, St(), pend) && OnlyMeta(g, m, M()) && failed == old(failed) && tableDirty
        invariant |refTable| == Times(g.per, refClusters) && refFirst + refClusters <= |hosts|
        invariant forall j: nat | j < k :: ChunkClean(g, St(), j)
        invariant Fine(answers, old(tick), tick)
      {
        ghost var before := tick;
        var ok := Io();
        ToldNext(answers, if ok then Done else Error(EIO), old(tick), before, tick);
        if !ok {
          return Error(EIO);
        }
        ghost var s1 := St();
        FlushChunkKeeps(g, s1, k, pend);
        ChunkMeta(g, m, s1, k, Pointers(Chunk(g, M(), k)), pend);
        SetHost(refFirst + k, Pointers(Chunk(g, M(), k)));
      }
      TableFlushed(g, St(), pend);
      tableDirty := false;
      FineTells(answers, Done, old(tick), tick);
      return Done;
    }

    /** `flush_refcounts`: afterwards the refcounts on disk are the ones in memory. */
    method FlushRefcounts(ghost pend: multiset<nat>) returns (r: Outcome)
      requires Core(g, St(), pend) && Linked(St())
      modifies this`hosts, this`refDirty, this`tableDirty, this`tableMoved, this`hdrFirst, this`hdrClusters, this`failed, this`tick
      ensures Told(answers, r, old(tick), tick) && (r.Error? ==> r == Error(EIO))
      ensures r.Done? ==>
        && Core(g, St(), pend) && OnlyMeta(g, old(M()), M()) && failed == old(failed)
        && Flushed(St())
    {
      hide Fine, Told, Core, Expected, OnlyMeta, Times, Slice, Chunk, Linked;
      ghost var m := M();
      r := FlushBlocks(pend);
      if r.Error? {
        return;
      }
      ToldFine(answers, old(tick), tick);
      ghost var m1, t1 := M(), tick;
      r := FlushTable(pend);
      ToldNext(answers, r, old(tick), t1, tick);
      if r.Error? {
        return;
      }
      OnlyMetaTwice(g, m, m1, M());
      ghost var t2 := tick;
      var ok := Io();
      ToldNext(answers, if ok then Done else Error(EIO), old(tick), t2, tick);
      if !ok {
        return Error(EIO);
      }
      if tableMoved {
        r := FlushHeader(pend);
        ToldNext(answers, r, old(tick), t2 + 1, tick);
      }
    }

    /** Makes the header name the refcount table in use. */
    method FlushHeader(ghost pend: multiset<nat>) returns (r: Outcome)
      requires Core(g, St(), pend)
      modifies this`tableMoved, this`hdrFirst, this`hdrClusters, this`failed, this`tick
      ensures Told(answers, r, old(tick), tick) && (r.Error? ==> r == Error(EIO))
      ensures r.Done? ==> Core(g, St(), pend) && failed == old(failed) && !tableMoved
    {
      hide Fine, Told, Core;
      var ok := Io();
      if !ok {
        return Error(EIO);
      }
      ToldFine(answers, old(tick), tick);
      ghost var s1, t1 := St(), tick;
      hdrFirst, hdrClusters := refFirst, refClusters;
      ok := Io();
      ToldNext(answers, if ok then Done else Error(EIO), old(tick), t1, tick);
      if !ok {
        return Error(EIO);
      }
      tableMoved := false;
      HeaderWritten(g, s1, St(), pend);
      return Done;
    }

    /** Appends a cluster and writes its contents. */
    method PlaceCluster(c: Cluster, tag: nat, ghost pend: multiset<nat>) returns (r: Outcome, off: nat)
      requires Kept(g, St(), pend) && PendInside(St(), pend) && 0 < g.per && Covered(g, St(), |hosts| + 1) && Linked(St())
      requires forall n: nat | refFirst <= n < refFirst + refClusters :: pend[n] == 0
      modifies this`hosts, this`refs, this`tags, this`refDirty, this`failed, this`tick
      ensures Told(answers, r, old(tick), tick) && (r.Error? ==> r.code == EIO || r.code == EFBIG)
      ensures r == Error(EFBIG) ==> old(|hosts|) + 1 > MAX_CLUSTERS
      ensures r.Done? ==> Placed(g, old(St()), St(), off, c, tag, pend) && failed == old(failed) && Linked(St())
      ensures r.Done? ==> |hosts| == old(|hosts|) + 1
    {
      hide Fine, Told, Kept, Expected, SameMap, Times, Slice, Mark, Run, Grew, Spare, PendInside, RefsCovered, Covered,
        Placed, Linked, DirtyOk;
      ghost var s1 := St();
      LinkedDirty(g, s1);
      r, off := AppendHosts(1, tag, pend);
      if r.Error? {
        return;
      }
      ToldFine(answers, old(tick), tick);
      ghost var s2, t2 := St(), tick;
      NewReady(g, s1, s2, off, tag, pend);
      NewCovered(g, s1, s2, off, tag, pend);
      var ok := Io();
      ToldNext(answers, if ok then Done else Error(EIO), old(tick), t2, tick);
      if !ok {
        return Error(EIO), off;
      }
      PlacedHere(g, s1, s2, off, c, tag, pend);
      SetHost(off, c);
    }

    /** `allocate_cluster`: a new cluster with the given contents, counted once and not yet linked. */
    method AllocateCluster(c: Cluster, tag: nat, ghost pend: multiset<nat>) returns (r: Outcome, off: nat)
      requires Ready(g, St(), pend) && |hosts| <= MAX_CLUSTERS
      modifies this`hosts, this`refs, this`tags, this`refDirty, this`failed, this`refTable, this`refFirst, this`refClusters,
        this`tableDirty, this`tableMoved, this`hdrFirst, this`hdrClusters, this`tick
      ensures Spends(answers, g, old(M()), M(), 1, r, old(tick), tick)
      ensures r.Done? ==>
        && Ready(g, St(), pend + multiset{off}) && SameMap(old(M()), M()) && |hosts| <= MAX_CLUSTERS
        && NewCluster(g, St(), off, c, tag)
        && failed == old(failed)
    {
      hide Fine, Told, Spends, KeepsRoom, Room, Linked, DirtyOk, Kept, Expected, SameMap, Times, Slice, Chunk, Flushed,
        Spare, PendInside, RefsCovered, NewCluster, OnlyMeta, Covered, Placed;
      ghost var s0 := St();
      KeptSizes(g, s0, pend);
      LinkedDirty(g, s0);
      r := EnsureRefcounts(1, pend);
      if r.Error? {
        SpendsEnsure(answers, g, s0.m, M(), r, old(tick), tick);
        return r, 0;
      }
      ToldFine(answers, old(tick), tick);
      ghost var s1, t1 := St(), tick;
      KeptRoom(g, s0.m, s1.m, 1);
      r, off := PlaceCluster(c, tag, pend);
      ToldNext(answers, r, old(tick), t1, tick);
      SpendsPlaced(answers, g, s0.m, s1.m, M(), r, old(tick), tick);
      if r.Error? {
        return;
      }
      ghost var s3, t3 := St(), tick;
      PlacedKept(g, s1, s3, off, c, tag, pend);
      KeptSizes(g, s3, pend + multiset{off});
      r := FlushRefcounts(pend + multiset{off});
      SpendsFlush(answers, g, s3.m, M(), r, t3, tick);
      SpendsNext(answers, g, s0.m, s3.m, M(), 1, 0, r, old(tick), t3, tick);
      if r.Done? {
        FlagsFollow(g, s3, St(), pend + multiset{off});
        NewDone(g, s0, s1, s3, St(), off, c, tag, pend);
      }
    }

    method SetRootFlag(i: nat)
      requires i < |l1| == |diskL1|
      modifies this`l1, this`diskL1
      ensures St() == FlagRoot(old(St()), i)
    {
      l1, diskL1 := l1[i := Flagged(l1[i])], diskL1[i := Flagged(l1[i])];
    }

    method SetFlag(t: nat, j: nat)
      requires t < |hosts| && hosts[t].Table? && j < |hosts[t].es|
      modifies this`hosts
      ensures St() == FlagEntry(old(St()), t, j)
    {
      var es := hosts[t].es;
      hosts := hosts[t := Table(es[j := Flagged(es[j])])];
    }

    /** Sets the flag of every L1 entry for `n`. */
    method RefreshRoots(n: nat, ghost pend: multiset<nat>) returns (r: Outcome)
      requires KeptBut(g, St(), pend, n) && n != 0
      modifies this`l1, this`diskL1, this`failed, this`tick
      ensures Told(answers, r, old(tick), tick) && (r.Error? ==> r == Error(EIO))
      ensures r.Done? ==> KeptBut(g, St(), pend, n) && SameShape(g, old(M()), M()) && RowSet(l1, n) && failed == old(failed)
    {
      hide Fine, Told, KeptBut, SameShape;
      ghost var m := M();
      ShapeSelf(g, St(), pend, n);
      NotAsked(answers, tick);
      for i := 0 to |l1|
        invariant Fine(answers, old(tick), tick)
        invariant KeptBut(g, St(), pend, n) && SameShape(g, m, M()) && |diskL1| == |l1| == |m.l1| && failed == old(failed)
        invariant forall k | 0 <= k < i :: l1[k].off == n ==> l1[k].copied
      {
        if l1[i].off == n {
          ghost var before := tick;
          var ok := Io();
          ToldNext(answers, if ok then Done else Error(EIO), old(tick), before, tick);
          if !ok {
            return Error(EIO);
          }
          ghost var s1 := St();
          FlagRootKeeps(g, s1, i, n, pend);
          ShapeRoot(g, m, s1, i);
          SetRootFlag(i);
        }
      }
      FineTells(answers, Done, old(tick), tick);
      return Done;
    }

    /** Sets the flag of every entry for `n` in the table behind L1 entry `i`. */
    method RefreshRow(i: nat, n: nat, ghost pend: multiset<nat>, ghost m: Map) returns (r: Outcome)
      requires KeptBut(g, St(), pend, n) && n != 0 && i < |l1| && SameShape(g, m, M())
      requires forall k | 0 <= k < i :: RowSet(Below(hosts, l1[k]), n)
      modifies this`hosts, this`failed, this`tick
      ensures Told(answers, r, old(tick), tick) && (r.Error? ==> r == Error(EIO))
      ensures r.Done? ==> KeptBut(g, St(), pend, n) && SameShape(g, m, M()) && failed == old(failed)
      ensures r.Done? ==> forall k | 0 <= k <= i :: RowSet(Below(hosts, l1[k]), n)
    {
      hide Fine, Told, KeptBut, SameShape, Below, RowSet, RowPart;
      var t := l1[i].off;
      NotAsked(answers, tick);
      FineTells(answers, Done, tick, tick);
      if t == 0 {
        EmptyRow(hosts, l1[i], n);
        return Done;
      }
      RowPartFirst(g, St(), pend, n, m, i);
      for j := 0 to g.per
        invariant RowPart(g, St(), pend, n, m, i, j) && failed == old(failed) && Fine(answers, old(tick), tick)
      {
        ghost var before := tick;
        RowPartNext(g, St(), pend, n, m, i, j);
        var ok := Fetch();
        ToldNext(answers, if ok then Done else Error(EIO), old(tick), before, tick);
        if !ok {
          return Error(EIO);
        }
        if hosts[t].es[j].off == n {
          ok := Io();
          ToldNext(answers, if ok then Done else Error(EIO), old(tick), before + 1, tick);
          if !ok {
            return Error(EIO);
          }
          SetFlag(t, j);
        }
      }
      RowPartLast(g, St(), pend, n, m, i);
      FineTells(answers, Done, old(tick), tick);
      return Done;
    }

    /** `refresh_copied_flags`: the flags describe a count that has just become one. */
    method RefreshCopied(n: nat, tag: nat, ghost pend: multiset<nat>) returns (r: Outcome)
      requires KeptBut(g, St(), pend, n) && 0 < n < |refs| && refs[n] == 1 && tag in {DATA, L2}
      requires if tag == L2 then DataRefs(hosts, l1, n) == 0 else Occ(l1, n) == 0
      modifies this`l1, this`diskL1, this`hosts, this`failed, this`tick
      ensures Told(answers, r, old(tick), tick) && (r.Error? ==> r == Error(EIO))
      ensures r.Done? ==> Kept(g, St(), pend) && SameShape(g, old(M()), M()) && failed == old(failed)
    {
      hide Fine, Told, KeptBut, Kept, SameShape, RowSet, DataRefs, Occ, Below;
      ghost var m := M();
      NoRowFor(M(), n);
      NotAsked(answers, tick);
      if tag == L2 {
        r := RefreshRoots(n, pend);
        if r.Error? {
          return;
        }
        ToldFine(answers, old(tick), tick);
        RowsKept(g, m, St(), pend, n);
      } else {
        ShapeSelf(g, St(), pend, n);
        for i := 0 to |l1|
          invariant KeptBut(g, St(), pend, n) && SameShape(g, m, M()) && failed == old(failed) && l1 == old(l1) && refs == old(refs)
          invariant forall k | 0 <= k < i :: RowSet(Below(hosts, l1[k]), n)
          invariant Fine(answers, old(tick), tick)
        {
          ghost var before := tick;
          r := RefreshRow(i, n, pend, m);
          ToldNext(answers, r, old(tick), before, tick);
          if r.Error? {
            return;
          }
        }
      }
      RefreshDone(g, St(), n, pend);
      ghost var before := tick;
      var ok := Io();
      r := if ok then Done else Error(EIO);
      ToldNext(answers, r, old(tick), before, tick);
    }

    /** `drop_reference`: one path to `n` is gone. */
    method DropReference(n: nat, ghost pend: multiset<nat>) returns (r: Outcome)
      requires Ready(g, St(), pend + multiset{n}) && 0 < n < |refs| == |tags| && pend[n] == 0 && MetaRefs(g, M(), n) == 0
      modifies this`hosts, this`refs, this`tags, this`refDirty, this`failed, this`refTable, this`refFirst, this`refClusters,
        this`tableDirty, this`tableMoved, this`hdrFirst, this`hdrClusters, this`l1, this`diskL1, this`tick
      ensures Told(answers, r, old(tick), tick) && (r.Error? ==> r.code == EIO || r.code == EINVAL)
      ensures r == Error(EINVAL) ==> old(refs)[n] == 0
      ensures r.Done? ==> Ready(g, St(), pend) && Dropped(g, old(St()), St(), n) && SameSizes(old(M()), M())
      ensures r.Done? ==> failed == old(failed)
    {
      hide Fine, Told, Ready, Kept, KeptBut, Core, Expected, Mark, Occ, DataRefs, MetaRefs, Dropped, OnlyMeta, SameShape,
        Linked, Flushed, SameSizes;
      ghost var s0 := St();
      var tag := tags[n];
      if refs[n] == 0 {
        NotAsked(answers, tick);
        FineTells(answers, Error(EINVAL), tick, tick);
        return Error(EINVAL);
      }
      DropReady(g, s0, n, pend);
      CountDown(n);
      ghost var s1 := St();
      r := FlushRefcounts(pend);
      if r.Error? {
        return;
      }
      ToldFine(answers, old(tick), tick);
      ghost var s2, t2 := St(), tick;
      DropFlushed(g, s0, s1, s2, n, pend);
      if refs[n] == 1 {
        r := RefreshCopied(n, tag, pend);
        ToldNext(answers, r, old(tick), t2, tick);
        if r.Error? {
          return;
        }
      } else {
        ShapeSelf(g, s2, pend, n);
      }
      DropSettled(g, s0, s1, s2, St(), n, pend);
    }

    /** One reference less; a cluster without references has no tag. */
    method CountDown(n: nat)
      requires 0 < g.per && n < |refs| == |tags| && 0 < refs[n]
      modifies this`refs, this`tags, this`refDirty
      ensures St() == Drop(g, old(St()), n)
    {
      hide Mark;
      refDirty := Mark(g, refDirty, n);
      refs, tags := refs[n := refs[n] - 1], if refs[n] == 1 then tags[n := 0] else tags;
    }

    /** `writable_l2`: after it, only this L1 entry uses the table. The guest sees no change. */
    method WritableL2(index: nat) returns (r: Outcome, t: nat)
      requires Ready(g, St(), multiset{}) && index < |l1| && |hosts| <= MAX_CLUSTERS
      modifies this`hosts, this`refs, this`tags, this`refDirty, this`failed, this`refTable, this`refFirst, this`refClusters,
        this`tableDirty, this`tableMoved, this`hdrFirst, this`hdrClusters, this`l1, this`diskL1, this`tick
      ensures Spends(answers, g, old(M()), M(), old(One(NeedsTable(St(), index))), r, old(tick), tick)
      ensures r.Done? ==>
        && Ready(g, St(), multiset{}) && |hosts| <= MAX_CLUSTERS && SameView(g, old(M()), M())
        && |l1| == old(|l1|) && index < |l1| && l1[index].off == t && 0 < t < |refs| && refs[t] == 1
        && failed == old(failed) && Lighter(g, old(St()), St(), 0) && !NeedsTable(St(), index)
    {
      hide Fine, Told, Spends, SameSizes, Lighter, Ready, Kept, Core, Expected, Occ, DataRefs, MetaRefs, SameMap, Dropped,
        SameView, CopiedRow, NewCluster;
      ghost var s0 := St();
      ReadySizes(g, s0, multiset{});
      TableInside(g, s0, multiset{}, index);
      var was := l1[index].off;
      NotAsked(answers, tick);
      FineTells(answers, Done, tick, tick);
      if was != 0 && refs[was] == 1 {
        ViewSelf(g, M());
        LighterSelf(g, s0);
        SpendsSame(answers, g, s0.m, tick);
        return Done, was;
      }
      var es := seq(g.per, _ => NONE);
      if was != 0 {
        var ok := Fetch();
        if !ok {
          SpendsFailed(answers, g, s0.m, M(), 1, old(tick), tick);
          return Error(EIO), 0;
        }
        ToldFine(answers, old(tick), tick);
        es := hosts[was].es;
      }
      r, t := ReplaceTable(index, es, old(tick));
    }

    /** A new table with entries `es` takes the place of the one behind an L1 entry. */
    method ReplaceTable(index: nat, es: seq<Entry>, ghost start: nat) returns (r: Outcome, t: nat)
      requires Ready(g, St(), multiset{}) && index < |l1| && |hosts| <= MAX_CLUSTERS && NeedsTable(St(), index)
      requires es == if l1[index].off == 0 then seq(g.per, _ => NONE) else Below(hosts, l1[index])
      requires Fine(answers, start, tick)
      modifies this`hosts, this`refs, this`tags, this`refDirty, this`failed, this`refTable, this`refFirst, this`refClusters,
        this`tableDirty, this`tableMoved, this`hdrFirst, this`hdrClusters, this`l1, this`diskL1, this`tick
      ensures Spends(answers, g, old(M()), M(), 1, r, start, tick)
      ensures r.Done? ==>
        && Ready(g, St(), multiset{}) && |hosts| <= MAX_CLUSTERS && SameView(g, old(M()), M())
        && |l1| == old(|l1|) && index < |l1| && l1[index].off == t && 0 < t < |refs| && refs[t] == 1
        && failed == old(failed) && Lighter(g, old(St()), St(), 0)
    {
      hide Fine, Told, Spends, Lighter, NeedsTable, Ready, Kept, Core, Expected, Occ, DataRefs, MetaRefs, SameMap, Dropped,
        SameView, CopiedRow, NewCluster, Below;
      ghost var s0, t0 := St(), tick;
      var was := l1[index].off;
      r, t := AllocateCluster(Table(es), L2, multiset{});
      SpendsAfter(answers, g, s0.m, M(), 1, r, start, t0, tick);
      if r.Error? {
        return;
      }
      ghost var s1, t1 := St(), tick;
      TableReady(g, s0, s1, index, t, es);
      r := SetRoot(index, Entry(t, true, false));
      ghost var s2, t2 := St(), tick;
      SpendsNothing(answers, g, s1.m, s2.m, r, t1, t2);
      SpendsNext(answers, g, s0.m, s1.m, s2.m, 1, 0, r, start, t1, t2);
      if r.Error? {
        return;
      }
      assert s2 == Retarget(s1, index, t);
      TableLinked(g, s0, s1, s2, index, t, es);
      TableLighter(g, s0, s1, s2, index, t, es);
      if was != 0 {
        CountPositive(g, s2, was, multiset{});
        r := DropReference(was, multiset{});
        SpendsNothing(answers, g, s2.m, M(), r, t2, tick);
        SpendsNext(answers, g, s0.m, s2.m, M(), 1, 0, r, start, t2, tick);
        if r.Error? {
          return;
        }
        TableOwned(g, s0, s2, St(), index, t, was);
        DropLighter(g, s0, s2, St(), was, 0);
      }
      ReadySizes(g, St(), multiset{});
    }

    /** An L1 entry is written and synced. */
    method SetRoot(i: nat, e: Entry) returns (r: Outcome)
      requires i < |l1| == |diskL1|
      modifies this`l1, this`diskL1, this`failed, this`tick
      ensures Told(answers, r, old(tick), tick) && (r.Error? ==> r == Error(EIO))
      ensures r.Done? ==> l1 == old(l1)[i := e] && diskL1 == old(diskL1)[i := e] && failed == old(failed)
    {
      hide Fine, Told;
      var ok := Io();
      if !ok {
        return Error(EIO);
      }
      ToldFine(answers, old(tick), tick);
      ghost var before := tick;
      diskL1 := diskL1[i := e];
      ok := Io();
      r := if ok then Done else Error(EIO);
      ToldNext(answers, r, old(tick), before, tick);
      if ok {
        l1 := l1[i := e];
      }
    }

    /** The entry of guest cluster `c`, read from its L2 table if there is one. */
    method Lookup(c: nat) returns (r: Outcome, e: Entry)
      requires MapOk(g, M()) && Quot(g.per, c) < |l1|
      modifies this`tick
      ensures Told(answers, r, old(tick), tick) && (r.Error? ==> r == Error(EIO))
      ensures r.Done? ==> e == EntryOf(g, M(), c)
    {
      hide Fine, Told;
      var i, j := DivMod(g.per, c);
      NotAsked(answers, tick);
      FineTells(answers, Done, tick, tick);
      if l1[i].off == 0 {
        return Done, NONE;
      }
      var ok := Fetch();
      if !ok {
        return Error(EIO), NONE;
      }
      RowHere(g, M(), i);
      return Done, hosts[l1[i].off].es[j];
    }

    /** Part of one guest cluster. A read may fail, but a failed read changes nothing. */
    method ReadPart(c: nat, within: nat, n: nat) returns (r: Outcome, buf: seq<Byte>)
      requires MapOk(g, M()) && Quot(g.per, c) < |l1| && within + n <= ClusterBytes(g)
      requires Times(ClusterBytes(g), c) + within + n <= g.size
      modifies this`tick
      ensures Told(answers, r, old(tick), tick) && (r.Error? ==> r == Error(EIO))
      ensures r.Done? ==> var p := Times(ClusterBytes(g), c) + within; buf == Guest(g, M())[p..p + n]
    {
      hide Fine, Told, EntryOf, Times, Quot, Guest, GuestByte, MapOk, Zeros;
      var e;
      r, e := Lookup(c);
      if r.Error? {
        return r, [];
      }
      ToldFine(answers, old(tick), tick);
      var base := Mul(8 * g.per, c);
      var pos := base + within;
      PartOf(g, M(), c, within, n);
      if e.zero {
        return Done, Zeros(n);
      }
      var inherited := if pos >= |g.parent| then 0 else if |g.parent| - pos < n then |g.parent| - pos else n;
      if e.off == 0 && inherited == 0 {
        return Done, Zeros(n);
      }
      // the data cluster, or the parent's bytes
      ghost var before := tick;
      var ok := Fetch();
      ToldNext(answers, if ok then Done else Error(EIO), old(tick), before, tick);
      if !ok {
        return Error(EIO), [];
      }
      if e.off != 0 {
        return Done, hosts[e.off].bytes[within..within + n];
      }
      return Done, g.parent[pos..pos + inherited] + Zeros(n - inherited);
    }

    /** `qcow_read`: inside the disk it succeeds exactly when the environment does not fail. */
    method Read(pos: nat, count: nat) returns (r: Outcome, buf: seq<Byte>)
      requires MapOk(g, M()) && Capacity(g, |l1|)
      modifies this`tick
      ensures pos + count > g.size ==> r == Error(EINVAL) && tick == old(tick)
      ensures pos + count <= g.size ==> r == (if Fine(answers, old(tick), tick) then Done else Error(EIO)) && old(tick) <= tick
      ensures r.Done? ==> pos + count <= g.size && buf == Guest(g, M())[pos..pos + count]
    {
      hide Fine, Told, Times, Quot, Guest, MapOk;
      if pos + count > g.size {
        return Error(EINVAL), [];
      }
      buf := [];
      var left: nat := count;
      NotAsked(answers, tick);
      while left > 0
        invariant left + |buf| == count && buf == Guest(g, M())[pos..pos + |buf|] && old(tick) <= tick
        invariant Fine(answers, old(tick), tick)
      {
        assert 0 < g.per by { PerOk(g, M()); }
        var c, within := DivMod(8 * g.per, pos + |buf|);
        var n := if 8 * g.per - within > left then left else 8 * g.per - within;
        var part;
        CapacityAt(g, |l1|, c);
        ghost var before := tick;
        r, part := ReadPart(c, within, n);
        ToldNext(answers, r, old(tick), before, tick);
        if r.Error? {
          ToldExactly(answers, r, old(tick), tick);
          return r, [];
        }
        ghost var was := |buf|;
        buf := buf + part;
        assert Guest(g, M())[pos..pos + was] + Guest(g, M())[pos + was..pos + was + n] == Guest(g, M())[pos..pos + was + n];
        left := left - n;
      }
      return Done, buf;
    }

    /** The new contents of one guest cluster, in a new cluster. */
    method CopyCluster(c: nat, within: nat, data: seq<Byte>) returns (r: Outcome, off: nat, ghost block: seq<Byte>, ghost inherited: nat)
      requires Ready(g, St(), multiset{}) && Capacity(g, |l1|) && |hosts| <= MAX_CLUSTERS && 0 < g.per
      requires 0 < |data| && within + |data| <= ClusterBytes(g) && Times(ClusterBytes(g), c) + within + |data| <= g.size
      modifies this`hosts, this`refs, this`tags, this`refDirty, this`failed, this`refTable, this`refFirst, this`refClusters,
        this`tableDirty, this`tableMoved, this`hdrFirst, this`hdrClusters, this`tick
      ensures var base := Times(ClusterBytes(g), c);
        && inherited == (if g.size - base < ClusterBytes(g) then g.size - base else ClusterBytes(g))
        && block == Put(old(Guest(g, M()))[base..base + inherited] + Zeros(ClusterBytes(g) - inherited), within, data)
      ensures Spends(answers, g, old(M()), M(), 1, r, old(tick), tick)
      ensures r.Done? ==>
        && Ready(g, St(), multiset{} + multiset{off}) && SameMap(old(M()), M()) && |hosts| <= MAX_CLUSTERS
        && NewCluster(g, St(), off, Data(block), DATA) && failed == old(failed)
    {
      hide Fine, Told, Spends, Ready, Kept, Core, Expected, Occ, DataRefs, MetaRefs, SameMap, Guest, Put, Times, MapOk,
        Flushed, Quot, NewCluster;
      ghost var s0 := St();
      ReadySizes(g, s0, multiset{});
      var base := Mul(8 * g.per, c);
      var size := if g.size - base < 8 * g.per then g.size - base else 8 * g.per;
      inherited := size;
      block := Put(Guest(g, M())[base..base + size] + Zeros(8 * g.per - size), within, data);
      var was;
      r, was := Read(base, size);
      ReadTells(answers, r, old(tick), tick);
      if r.Error? {
        SpendsFailed(answers, g, s0.m, M(), 1, old(tick), tick);
        return r, 0, block, inherited;
      }
      ghost var t1 := tick;
      r, off := AllocateCluster(Data(Put(was + Zeros(8 * g.per - size), within, data)), DATA, multiset{});
      SpendsAfter(answers, g, s0.m, M(), 1, r, old(tick), t1, tick);
    }

    /** Copy on write of one guest cluster: the new contents go to a new cluster, which takes the place of
        the old mapping, whatever that was. */
    method ReplaceCluster(c: nat, idx: nat, j: nat, t: nat, within: nat, data: seq<Byte>, n: nat) returns (r: Outcome)
      requires Ready(g, St(), multiset{}) && Capacity(g, |l1|) && |hosts| <= MAX_CLUSTERS && Private(g, St(), c, idx, j, t)
      requires 0 < |data| && within + |data| <= ClusterBytes(g) && Times(ClusterBytes(g), c) + within + |data| <= g.size
      requires n == EntryOf(g, M(), c).off
      modifies this`hosts, this`refs, this`tags, this`refDirty, this`failed, this`refTable, this`refFirst, this`refClusters,
        this`tableDirty, this`tableMoved, this`hdrFirst, this`hdrClusters, this`l1, this`diskL1, this`tick
      ensures Spends(answers, g, old(M()), M(), 1, r, old(tick), tick)
      ensures r.Done? ==>
        && Ready(g, St(), multiset{}) && |hosts| <= MAX_CLUSTERS && |l1| == old(|l1|)
        && Guest(g, M()) == Put(old(Guest(g, M())), Times(ClusterBytes(g), c) + within, data)
        && failed == old(failed) && Lighter(g, old(St()), St(), c + 1)
    {
      hide Fine, Told, Spends, Lighter, Ready, Kept, Core, Expected, Occ, DataRefs, MetaRefs, SameMap, Dropped, SameView,
        Spare, EntryOf, Guest, Put, Times, MapOk, Flushed, Quot, NewCluster, EntryOk, Zeros, Capacity, GuestByte, PendInside,
        RefsCovered;
      ghost var s0 := St();
      ReadySizes(g, s0, multiset{});
      var off;
      ghost var block, inherited;
      r, off, block, inherited := CopyCluster(c, within, data);
      if r.Error? {
        return;
      }
      ghost var s1, t1 := St(), tick;
      ReadySizes(g, s1, multiset{} + multiset{off});
      EntryReady(g, s0, s1, c, idx, j, t, off, block);
      r := WriteEntry(t, j, Entry(off, true, false));
      ghost var s2, t2 := St(), tick;
      SpendsNothing(answers, g, s1.m, s2.m, r, t1, t2);
      SpendsNext(answers, g, s0.m, s1.m, s2.m, 1, 0, r, old(tick), t1, t2);
      if r.Error? {
        return;
      }
      assert s2 == SetEntry(s1, idx, j, Entry(off, true, false));
      CopyLinked(g, s0, s1, s2, c, idx, j, t, off, block, inherited, within, data, n);
      CopyLighter(g, s0, s1, s2, c, idx, j, off, Data(block));
      r := DropReplaced(n, s0, c + 1);
      SpendsNext(answers, g, s0.m, s2.m, M(), 1, 0, r, old(tick), t2, tick);
    }

    /** An entry of an L2 table is written and synced. */
    method WriteEntry(t: nat, j: nat, e: Entry) returns (r: Outcome)
      requires t < |hosts| && hosts[t].Table? && j < |hosts[t].es|
      modifies this`hosts, this`failed, this`tick
      ensures Told(answers, r, old(tick), tick) && (r.Error? ==> r == Error(EIO))
      ensures r.Done? ==> hosts == old(hosts)[t := Table(old(hosts)[t].es[j := e])] && failed == old(failed)
    {
      hide Fine, Told;
      var ok := Io();
      if !ok {
        return Error(EIO);
      }
      ToldFine(answers, old(tick), tick);
      ghost var before := tick;
      ok := Io();
      r := if ok then Done else Error(EIO);
      ToldNext(answers, r, old(tick), before, tick);
      hosts := hosts[t := Table(hosts[t].es[j := e])];
    }

    /** The path from the replaced entry to cluster `n`, if there was one, is dropped. */
    method DropReplaced(n: nat, ghost s0: State, ghost from: nat) returns (r: Outcome)
      requires |hosts| <= MAX_CLUSTERS && 0 < g.per && (n == 0 ==> Ready(g, St(), multiset{}))
      requires n != 0 ==> Ready(g, St(), multiset{} + multiset{n}) && n < |refs| && MetaRefs(g, M(), n) == 0
      requires Lighter(g, s0, St(), from)
      modifies this`hosts, this`refs, this`tags, this`refDirty, this`failed, this`refTable, this`refFirst, this`refClusters,
        this`tableDirty, this`tableMoved, this`hdrFirst, this`hdrClusters, this`l1, this`diskL1, this`tick
      ensures Spends(answers, g, old(M()), M(), 0, r, old(tick), tick)
      ensures r.Done? ==>
        && Ready(g, St(), multiset{}) && |hosts| <= MAX_CLUSTERS && |l1| == old(|l1|)
        && Guest(g, M()) == old(Guest(g, M())) && failed == old(failed) && Lighter(g, s0, St(), from)
    {
      hide Fine, Told, Spends, Lighter, Ready, Kept, Core, Expected, Occ, DataRefs, MetaRefs, SameMap, Dropped, Guest,
        GuestByte, MapOk, Flushed;
      ghost var s := St();
      if n == 0 {
        SpendsSame(answers, g, M(), tick);
        return Done;
      }
      CountPositive(g, s, n, multiset{});
      r := DropReference(n, multiset{});
      SpendsNothing(answers, g, s.m, M(), r, old(tick), tick);
      if r.Done? {
        SameGuestDropped(g, s, St(), n);
        DropLighter(g, s0, s, St(), n, from);
      }
    }

    /** A cluster with one reference is rewritten in place. */
    method RewriteCluster(c: nat, within: nat, data: seq<Byte>, n: nat) returns (r: Outcome)
      requires Ready(g, St(), multiset{}) && |hosts| <= MAX_CLUSTERS && n == EntryOf(g, M(), c).off && n != 0 && !EntryOf(g, M(), c).zero
      requires n < |refs| && refs[n] == 1
      requires 0 < |data| && within + |data| <= ClusterBytes(g) && Times(ClusterBytes(g), c) + within + |data| <= g.size
      modifies this`hosts, this`failed, this`tick
      ensures Spends(answers, g, old(M()), M(), 0, r, old(tick), tick)
      ensures r.Done? ==>
        && Ready(g, St(), multiset{}) && |hosts| <= MAX_CLUSTERS && failed == old(failed)
        && Guest(g, M()) == Put(old(Guest(g, M())), Times(ClusterBytes(g), c) + within, data)
        && Lighter(g, old(St()), St(), c + 1)
    {
      hide Fine, Told, Spends, Lighter, Ready, Kept, Core, Expected, Occ, DataRefs, MetaRefs, EntryOf, Guest, Put, Times, MapOk;
      ghost var s0 := St();
      ReadySizes(g, s0, multiset{});
      DataNotMeta(g, M(), c);
      var ok := Io();
      if !ok {
        SpendsFailed(answers, g, s0.m, M(), 0, old(tick), tick);
        return Error(EIO);
      }
      Rewritten(g, s0, c, within, data, n);
      RewriteLighter(g, s0, n, Put(s0.m.hosts[n].bytes, within, data), c + 1);
      hosts := hosts[n := Data(Put(hosts[n].bytes, within, data))];
      assert St() == PutData(s0, n, Put(s0.m.hosts[n].bytes, within, data));
      SpendsNothing(answers, g, s0.m, M(), Done, old(tick), tick);
      return Done;
    }

    /** One turn of the write loop: part of one guest cluster. It takes a cluster for the L2 table if that is
        absent or shared, and one for the data unless that can be rewritten in place. */
    method WritePart(c: nat, within: nat, data: seq<Byte>) returns (r: Outcome)
      requires Ready(g, St(), multiset{}) && Capacity(g, |l1|) && |hosts| <= MAX_CLUSTERS && 0 < g.per
      requires 0 < |data| && within + |data| <= ClusterBytes(g) && Times(ClusterBytes(g), c) + within + |data| <= g.size
      modifies this`hosts, this`refs, this`tags, this`refDirty, this`failed, this`refTable, this`refFirst, this`refClusters,
        this`tableDirty, this`tableMoved, this`hdrFirst, this`hdrClusters, this`l1, this`diskL1, this`tick
      ensures Spends(answers, g, old(M()), M(), old(Need(g, St(), c)), r, old(tick), tick)
      ensures r.Done? ==>
        && Ready(g, St(), multiset{}) && |hosts| <= MAX_CLUSTERS && |l1| == old(|l1|)
        && Guest(g, M()) == Put(old(Guest(g, M())), Times(ClusterBytes(g), c) + within, data)
        && failed == old(failed)
      ensures r.Done? ==> Lighter(g, old(St()), St(), c + 1) && !NeedsTable(St(), Quot(g.per, c))
    {
      hide Fine, Told, Spends, Lighter, Ready, Kept, Core, Expected, Occ, DataRefs, MetaRefs, EntryOf, Guest, Put, Times,
        MapOk, SameView, Quot, NeedsTable;
      ghost var s0 := St();
      ReadySizes(g, s0, multiset{});
      var idx, j := DivMod(g.per, c);
      CapacityAt(g, |l1|, c);
      var t;
      r, t := WritableL2(idx);
      ghost var s1, t1, a := St(), tick, One(NeedsTable(s0, idx));
      if r.Error? {
        SpendsAtMost(answers, g, s0.m, s1.m, a, Need(g, s0, c), r, old(tick), tick);
        return;
      }
      SameGuest(g, s0.m, M());
      TableRow(g, s1, c, idx, j, t);
      var ok := Fetch();
      if !ok {
        SpendsAfter2(answers, g, s0.m, s1.m, a, Need(g, s0, c), old(tick), t1, tick);
        return Error(EIO);
      }
      SpendsNothing(answers, g, s1.m, s1.m, Done, t1, tick);
      SpendsNext(answers, g, s0.m, s1.m, s1.m, a, 0, Done, old(tick), t1, tick);
      r := WriteData(c, idx, j, t, within, data, hosts[t].es[j]);
      ghost var b := One(NeedsCluster(g, s1, c));
      SpendsNext(answers, g, s0.m, s1.m, M(), a, b, r, old(tick), t1 + 1, tick);
      NeedEnough(g, s0, s1, c, idx);
      SpendsAtMost(answers, g, s0.m, M(), a + b, Need(g, s0, c), r, old(tick), tick);
      if r.Done? {
        PartLighter(g, s0, s1, St(), c, idx);
      }
    }

    /** The data of one turn, with entry `e` read from the private table `t`. */
    method WriteData(c: nat, idx: nat, j: nat, t: nat, within: nat, data: seq<Byte>, e: Entry) returns (r: Outcome)
      requires Ready(g, St(), multiset{}) && Capacity(g, |l1|) && |hosts| <= MAX_CLUSTERS && Private(g, St(), c, idx, j, t)
      requires 0 < |data| && within + |data| <= ClusterBytes(g) && Times(ClusterBytes(g), c) + within + |data| <= g.size
      requires e == hosts[t].es[j]
      modifies this`hosts, this`refs, this`tags, this`refDirty, this`failed, this`refTable, this`refFirst, this`refClusters,
        this`tableDirty, this`tableMoved, this`hdrFirst, this`hdrClusters, this`l1, this`diskL1, this`tick
      ensures Spends(answers, g, old(M()), M(), old(One(NeedsCluster(g, St(), c))), r, old(tick), tick)
      ensures r.Done? ==>
        && Ready(g, St(), multiset{}) && |hosts| <= MAX_CLUSTERS && |l1| == old(|l1|)
        && Guest(g, M()) == Put(old(Guest(g, M())), Times(ClusterBytes(g), c) + within, data)
        && failed == old(failed) && Lighter(g, old(St()), St(), c + 1)
    {
      hide Fine, Told, Spends, Lighter, Ready, Kept, Core, Expected, Occ, DataRefs, MetaRefs, EntryOf, Guest, Put, Times,
        MapOk, SameView, Quot;
      if e.off == 0 || e.zero || refs[e.off] != 1 {
        r := ReplaceCluster(c, idx, j, t, within, data, e.off);
      } else {
        r := RewriteCluster(c, within, data, e.off);
      }
    }

    /** The image is consistent and within the limits of the open. */
    ghost predicate Sound()
      reads this
    {
      Ready(g, St(), multiset{}) && Capacity(g, |l1|) && |hosts| <= MAX_CLUSTERS && 8 * |refTable| <= MAX_REF_BYTES
    }

    /** The image between two calls, as long as no I/O has failed. With nothing changed since the last
        sync, everything is on disk; with something changed, version 3 says so on disk. */
    ghost predicate Usable()
      reads this
    {
      Sound() && (!changed ==> Flushed(St())) && (hdrDirty <==> changed && g.version == 3)
    }

    /** What every call keeps, failed or not: until a failure is latched the image is usable, and a
        version 3 file that does not say dirty on disk is complete there. */
    ghost predicate Held()
      reads this
    {
      && 0 < g.per && (!failed ==> Usable())
      && (g.version == 3 && !hdrDirty ==> Sound() && Flushed(St()))
    }

    /** The dirty bit of the header is written; a failed write may have landed. */
    method WriteDirty(value: bool) returns (ok: bool)
      modifies this`hdrDirty, this`failed, this`tick
      ensures tick == old(tick) + 1 && Told(answers, if ok then Done else Error(EIO), old(tick), tick)
      ensures failed == (old(failed) || !ok) && (ok ==> hdrDirty == value)
      ensures hdrDirty == old(hdrDirty) || hdrDirty == value
    {
      ok := Io();
      if ok || At(answers, tick - 1).landed {
        hdrDirty := value;
      }
    }

    /** `begin_write`: the dirty bit is on disk before anything else is written. */
    method BeginWrite() returns (r: Outcome)
      requires Held()
      modifies this`changed, this`hdrDirty, this`failed, this`tick
      ensures old(failed) ==> r == Error(EIO) && unchanged(this)
      ensures !old(failed) ==> Told(answers, r, old(tick), tick) && (r.Error? ==> r == Error(EIO))
      ensures r.Done? ==> Usable() && changed && !failed
      ensures r.Error? ==> failed && Held()
    {
      hide Fine, Told, Ready, Capacity, Flushed;
      if failed {
        return Error(EIO);
      }
      NotAsked(answers, tick);
      FineTells(answers, Done, tick, tick);
      if changed {
        return Done;
      }
      if g.version == 3 {
        var ok := WriteDirty(true);
        if !ok {
          return Error(EIO);
        }
        ToldFine(answers, old(tick), tick);
        ghost var before := tick;
        ok := Io();
        ToldNext(answers, if ok then Done else Error(EIO), old(tick), before, tick);
        if !ok {
          return Error(EIO);
        }
      }
      changed := true;
      return Done;
    }

    /** One turn of the write loop; the guest clusters from the next one up to `end` take no more clusters
        than they would have before. */
    method WriteNext(pos: nat, data: seq<Byte>, done: nat, ghost was: seq<Byte>, ghost end: nat) returns (r: Outcome, next: nat, ghost c: nat)
      requires Usable() && changed && !failed && pos + |data| <= g.size == |was| && done < |data|
      requires 0 < g.per && Guest(g, M()) == Put(was, pos, data[..done])
      modifies this`hosts, this`refs, this`tags, this`refDirty, this`failed, this`refTable, this`refFirst, this`refClusters,
        this`tableDirty, this`tableMoved, this`hdrFirst, this`hdrClusters, this`l1, this`diskL1, this`tick
      ensures c == Quot(ClusterBytes(g), pos + done)
      ensures Spends(answers, g, old(M()), M(), old(Need(g, St(), Quot(ClusterBytes(g), pos + done))), r, old(tick), tick)
      ensures r.Done? ==> Usable() && changed && !failed && 0 < g.per && done < next <= |data|
      ensures r.Done? ==> Guest(g, M()) == Put(was, pos, data[..next])
      ensures r.Done? ==> NeedFrom(g, St(), c + 1, end) <= NeedRest(g, old(St()), c + 1, end)
      ensures r.Done? && next < |data| ==> Quot(ClusterBytes(g), pos + next) == c + 1
    {
      hide Fine, Told, Spends, Ready, Capacity, Flushed, Guest, Times, Quot, NeedsTable, NeedsCluster, Lighter, NeedRest,
        NeedFrom, Need, Put;
      ghost var s0 := St();
      var at, within := DivMod(8 * g.per, pos + done);
      c := at;
      var n := if 8 * g.per - within > |data| - done then |data| - done else 8 * g.per - within;
      r := WritePart(at, within, data[done..done + n]);
      PutMore(was, pos, data, done, n);
      next := done + n;
      if r.Done? {
        SpendsFits(answers, g, s0.m, M(), Need(g, s0, at), old(tick), tick);
        FromLighter(g, s0, St(), at, end);
        if next < |data| { NextUnit(8 * g.per, at, pos + next); }
      }
    }

    /** The loop of `qcow_write`. */
    method WriteParts(pos: nat, data: seq<Byte>) returns (r: Outcome)
      requires Usable() && changed && !failed && pos + |data| <= g.size && 0 < g.per && 0 < |data|
      modifies this`hosts, this`refs, this`tags, this`refDirty, this`failed, this`refTable, this`refFirst, this`refClusters,
        this`tableDirty, this`tableMoved, this`hdrFirst, this`hdrClusters, this`l1, this`diskL1, this`tick
      ensures Spends(answers, g, old(M()), M(), old(WriteNeed(g, St(), pos, |data|)), r, old(tick), tick)
      ensures r.Done? ==> Usable() && changed && !failed && Guest(g, M()) == Put(old(Guest(g, M())), pos, data)
    {
      hide Fine, Told, Spends, Usable, Guest, Put, NeedFrom, NeedRest, Need, Quot;
      ghost var was, m, need := Guest(g, M()), M(), WriteNeed(g, St(), pos, |data|);
      ghost var c: nat, end: nat, taken: nat := Quot(ClusterBytes(g), pos), Quot(ClusterBytes(g), pos + |data| - 1) + 1, 0;
      var done := 0;
      PutNone(was, pos, data);
      SpendsSame(answers, g, m, tick);
      while done < |data|
        invariant Usable() && changed && !failed && 0 <= done <= |data|
        invariant Guest(g, M()) == Put(was, pos, data[..done])
        invariant done < |data| ==> c == Quot(ClusterBytes(g), pos + done)
        invariant Spends(answers, g, m, M(), taken, Done, old(tick), tick) && taken + NeedFrom(g, St(), c, end) <= need
      {
        ghost var s1, t1 := St(), tick;
        NeedsFirst(g, s1, pos, |data|, done);
        r, done, c := WriteNext(pos, data, done, was, end);
        SpendsNext(answers, g, m, s1.m, M(), taken, Need(g, s1, c), r, old(tick), t1, tick);
        taken := taken + Need(g, s1, c);
        if r.Error? {
          SpendsAtMost(answers, g, m, M(), taken, need, r, old(tick), tick);
          return;
        }
        c := c + 1;
      }
      assert data[..|data|] == data;
      SpendsAtMost(answers, g, m, M(), taken, need, Done, old(tick), tick);
      return Done;
    }

    /** `qcow_write`: on success the guest sees its old bytes with the range replaced, whatever was shared,
        zero or inherited, and the image is as the next open demands. A write inside the disk fails only
        with EIO, exactly when some I/O of this call fails, or with EFBIG, when there is no room for the
        clusters that it takes. Any failure is latched. */
    method Write(pos: nat, data: seq<Byte>) returns (r: Outcome)
      requires Held()
      modifies this
      ensures Held() && (old(Usable()) && r.Done? ==> Usable())
      ensures !writable ==> r == Error(EROFS) && unchanged(this)
      ensures writable && pos + |data| > g.size ==> r == Error(EINVAL) && unchanged(this)
      ensures writable && pos + |data| <= g.size && |data| == 0 ==> r == Done && unchanged(this)
      ensures writable && pos + |data| <= g.size && |data| > 0 && old(failed) ==> r == Error(EIO) && unchanged(this)
      ensures writable && pos + |data| <= g.size && |data| > 0 && !old(failed) ==>
        && (r == Error(EIO) <==> !Fine(answers, old(tick), tick)) && (r.Error? ==> r.code == EIO || r.code == EFBIG)
        && (r == Error(EFBIG) ==> !old(Room(g, M(), WriteNeed(g, St(), pos, |data|))))
      ensures r.Done? ==> pos + |data| <= g.size && Guest(g, M()) == Put(old(Guest(g, M())), pos, data)
      ensures r.Error? && writable && pos + |data| <= g.size ==> failed
    {
      hide Fine, Usable, Guest, Ready, Flushed, WriteNeed, Room, TakesRoom;
      if !writable {
        return Error(EROFS);
      }
      if pos + |data| > g.size {
        return Error(EINVAL);
      }
      if |data| == 0 {
        PutEmpty(Guest(g, M()), pos);
        return Done;
      }
      r := BeginWrite();
      if r.Error? {
        return;
      }
      UsableSays();
      ghost var m, t1 := M(), tick;
      r := WriteParts(pos, data);
      SpendsAfter(answers, g, m, M(), old(WriteNeed(g, St(), pos, |data|)), r, old(tick), t1, tick);
      if r.Error? {
        failed := true;
      } else {
        UsableSays();
      }
    }

    lemma UsableSays()
      requires Usable() && changed
      ensures g.version == 3 ==> hdrDirty
    {
    }

    /** `qcow_sync`: afterwards the file is complete and marked clean. On an image that has not failed it
        succeeds exactly when no I/O of this call fails. */
    method Sync() returns (r: Outcome)
      requires Held()
      modifies this
      ensures Held()
      ensures old(failed) ==> r == Error(EIO) && unchanged(this)
      ensures !old(failed) ==> r == (if Fine(answers, old(tick), tick) then Done else Error(EIO)) && old(tick) <= tick
      ensures r.Done? ==> Usable() && Flushed(St()) && !hdrDirty && !changed && Guest(g, M()) == old(Guest(g, M()))
      ensures r.Error? ==> failed
    {
      hide Fine, Ready, Capacity, Flushed, Guest;
      if failed {
        return Error(EIO);
      }
      NotAsked(answers, tick);
      if !changed {
        return Done;
      }
      r := SyncChanged();
    }

    /** The flush, and the dirty bit cleared after it. */
    method SyncChanged() returns (r: Outcome)
      requires Usable() && changed && !failed && 0 < g.per
      modifies this
      ensures r == (if Fine(answers, old(tick), tick) then Done else Error(EIO)) && old(tick) <= tick
      ensures g.version == 3 && !hdrDirty ==> Sound() && Flushed(St())
      ensures r.Done? ==> Usable() && Flushed(St()) && !hdrDirty && !changed && !failed && Guest(g, M()) == old(Guest(g, M()))
      ensures r.Error? ==> failed
    {
      hide Fine, Told, Ready, Capacity, Flushed, Guest, Core, Kept, SameMap, Linked;
      ghost var s0 := St();
      ReadySizes(g, s0, multiset{});
      ReadyLinked(g, s0, multiset{});
      r := FlushRefcounts(multiset{});
      ToldExactly(answers, r, old(tick), tick);
      if r.Error? {
        failed := true;
        return;
      }
      SyncDone(g, s0, St());
      if g.version == 3 {
        ghost var t1 := tick;
        r := MarkClean();
        ToldNext(answers, r, old(tick), t1, tick);
        ToldExactly(answers, r, old(tick), tick);
        if r.Error? {
          return;
        }
      }
      changed := false;
    }

    /** The header's dirty bit is cleared; after a failure it is set again, if the disk still takes that. */
    method MarkClean() returns (r: Outcome)
      modifies this`hdrDirty, this`failed, this`tick
      ensures Told(answers, r, old(tick), tick) && (r.Error? ==> r == Error(EIO) && failed)
      ensures r.Done? ==> !hdrDirty && failed == old(failed)
    {
      hide Fine, Told;
      var ok := WriteDirty(false);
      r := if ok then Done else Error(EIO);
      if ok {
        ToldFine(answers, old(tick), tick);
        ghost var before := tick;
        ok := Io();
        r := if ok then Done else Error(EIO);
        ToldNext(answers, r, old(tick), before, tick);
      }
      if !ok {
        ghost var before := tick;
        ok := WriteDirty(true);
        ok := Io();
        ToldStill(answers, old(tick), before, tick);
      }
    }
  }

  lemma CoveredNow(g: Geo, s: State, limit: nat, required: nat)
    requires 0 < g.per && (forall i: nat :: Times(PerBlock(g), i) < limit <==> i < required)
    requires required <= |s.m.refTable| && forall i | 0 <= i < required :: s.m.refTable[i] != 0
    ensures Covered(g, s, limit)
  {
  }

  lemma KeptSizes(g: Geo, s: State, pend: multiset<nat>)
    requires Kept(g, s, pend)
    ensures 0 < g.per && |s.refs| == |s.tags| == |s.m.hosts| && |s.refDirty| == |s.m.refTable| == Times(g.per, s.m.refClusters)
    ensures 0 < s.m.refClusters && 0 < s.m.refFirst && s.m.refFirst + s.m.refClusters <= |s.m.hosts|
    ensures s.diskL1 == s.m.l1 && MapOk(g, s.m) && Core(g, s, pend)
  {
  }

  lemma CoreSizes(g: Geo, s: State, pend: multiset<nat>)
    requires Core(g, s, pend)
    ensures 0 < g.per && |s.refs| == |s.tags| == |s.m.hosts| && |s.refDirty| == |s.m.refTable| == Times(g.per, s.m.refClusters)
    ensures 0 < s.m.refClusters && 0 < s.m.refFirst && s.m.refFirst + s.m.refClusters <= |s.m.hosts|
    ensures s.diskL1 == s.m.l1 && MapOk(g, s.m)
  {
  }

  lemma RunEmpty(pend: multiset<nat>, first: nat)
    ensures pend + Run(first, 0) == pend
  {
  }

  lemma DropIs(g: Geo, s: State, n: nat)
    requires 0 < g.per && n < |s.refs| == |s.tags| && 0 < s.refs[n]
    ensures Drop(g, s, n) == s.(refs := s.refs[n := s.refs[n] - 1], tags := if s.refs[n] == 1 then s.tags[n := 0] else s.tags,
                                refDirty := Mark(g, s.refDirty, n))
  {
  }

  lemma RunFirst(pend: multiset<nat>, first: nat, count: nat)
    requires 0 < count
    ensures pend + Run(first, count) == (pend + Run(first + 1, count - 1)) + multiset{first}
  {
  }

  /** An unlinked cluster is dropped without a trace in the flags. */
  lemma DropOld(g: Geo, s: State, n: nat, first: nat, count: nat, pend: multiset<nat>)
    requires Kept(g, s, pend + Run(first, count)) && n == first && 0 < n && 0 < count && first + count <= |s.refs|
    requires Expected(g, s.m, n) == 0 && pend[n] == 0
    ensures 0 < g.per && n < |s.refs| == |s.tags| && 0 < s.refs[n]
    ensures Kept(g, Drop(g, s, n), pend + Run(first + 1, count - 1))
  {
    hide MapOk, Flags, Tracked, Mark, Expected, Occ, DataRefs, MetaRefs, Below, Slice;
    RunFirst(pend, first, count);
    var rest := pend + Run(first + 1, count - 1);
    DropKeeps(g, s, n, rest);
    assert GeoPositive(g, s) by { PositivePer(g, s, pend + Run(first, count)); }
    var s' := Drop(g, s, n);
    assert s'.refs[n] == 0;
    SpareAlone(g, s.m, n);
    NoOldRows(s'.m, n);
    DropDone(g, s', rest, n);
  }

  predicate GeoPositive(g: Geo, s: State) { 0 < g.per }

  lemma PositivePer(g: Geo, s: State, pend: multiset<nat>)
    requires Kept(g, s, pend)
    ensures GeoPositive(g, s)
  {
  }

  lemma NoOldRows(m: Map, n: nat)
    requires Unmapped(m, n)
    ensures RowOld(m.l1, n) && forall i | 0 <= i < |m.l1| :: RowOld(Below(m.hosts, m.l1[i]), n)
  {
    hide Below, Occ, DataRefs;
    forall i | 0 <= i < |m.l1| ensures m.l1[i].off != n && RowOld(Below(m.hosts, m.l1[i]), n) {
      UnmappedEntry(m, n, i, 0);
      forall j | 0 <= j < |Below(m.hosts, m.l1[i])| ensures Below(m.hosts, m.l1[i])[j].off != n {
        UnmappedEntry(m, n, i, j);
      }
    }
  }

  lemma AppendIs(g: Geo, s: State, tag: nat)
    requires 0 < g.per
    ensures Append(g, s, tag) == s.(m := s.m.(hosts := s.m.hosts + [Plain]), refs := s.refs + [1], tags := s.tags + [tag],
                                    refDirty := Mark(g, s.refDirty, |s.refs|))
  {
  }

  lemma AppendStart(g: Geo, s: State, pend: multiset<nat>, tag: nat)
    requires Kept(g, s, pend)
    ensures pend + Run(|s.m.hosts|, 0) == pend && Grew(s, s, 0, tag) && 0 < g.per
  {
  }

  lemma AppendStep(g: Geo, s: State, s1: State, pend: multiset<nat>, i: nat, tag: nat)
    requires Kept(g, s1, pend + Run(|s.m.hosts|, i)) && PendInside(s1, pend + Run(|s.m.hosts|, i)) && Grew(s, s1, i, tag)
    ensures 0 < g.per && Kept(g, Append(g, s1, tag), pend + Run(|s.m.hosts|, i + 1)) && Grew(s, Append(g, s1, tag), i + 1, tag)
    ensures PendInside(Append(g, s1, tag), pend + Run(|s.m.hosts|, i + 1))
  {
    hide TablesOk, NoAlias, Flags, Tagged, Tracked, Mark;
    AppendKeeps(g, s1, tag, pend + Run(|s.m.hosts|, i));
    RunOneMore(pend, |s.m.hosts|, i);
    GrewOne(g, s, s1, i, tag);
  }

  /** `i` of the clusters have been appended. */
  ghost predicate Appended(g: Geo, s: State, s1: State, pend: multiset<nat>, i: nat, tag: nat) {
    && Kept(g, s1, pend + Run(|s.m.hosts|, i)) && PendInside(s1, pend + Run(|s.m.hosts|, i)) && Grew(s, s1, i, tag)
    && DirtyOk(g, s1)
  }

  lemma AppendedFirst(g: Geo, s: State, pend: multiset<nat>, tag: nat)
    requires Kept(g, s, pend) && PendInside(s, pend) && DirtyOk(g, s)
    ensures Appended(g, s, s, pend, 0, tag)
  {
    hide Kept, PendInside, DirtyOk, Grew, Run;
    AppendStart(g, s, pend, tag);
  }

  lemma AppendedStep(g: Geo, s: State, s1: State, pend: multiset<nat>, i: nat, tag: nat)
    requires Appended(g, s, s1, pend, i, tag) && 0 < g.per
    ensures Appended(g, s, Append(g, s1, tag), pend, i + 1, tag)
  {
    hide Kept, PendInside, DirtyOk, Grew, Run, Append;
    AppendStep(g, s, s1, pend, i, tag);
    DirtyAppend(g, s1, tag, pend + Run(|s.m.hosts|, i));
  }

  lemma AppendedMeans(g: Geo, s: State, s1: State, pend: multiset<nat>, i: nat, tag: nat)
    requires Appended(g, s, s1, pend, i, tag)
    ensures Kept(g, s1, pend + Run(|s.m.hosts|, i)) && PendInside(s1, pend + Run(|s.m.hosts|, i)) && Grew(s, s1, i, tag)
    ensures DirtyOk(g, s1)
  {
  }

  /** The table has moved to the clusters from `off` on; the old ones are unlinked, but still counted. */
  ghost predicate TableNow(g: Geo, s0: State, s3: State, off: nat, clusters: nat, pend: multiset<nat>) {
    && Kept(g, s3, pend + Run(s0.m.refFirst, s0.m.refClusters)) && DirtyOk(g, s3)
    && 0 < s0.m.refFirst && s0.m.refFirst + s0.m.refClusters <= |s0.m.hosts|
    && (forall n: nat | s0.m.refFirst <= n < s0.m.refFirst + s0.m.refClusters :: Expected(g, s3.m, n) == 0 && pend[n] == 0)
    && Moved(s0.m, s3.m, pend) && |s3.refs| == |s3.m.hosts| == off + clusters
  }

  lemma TableIsAt(g: Geo, s0: State, s1: State, off: nat, clusters: nat, added: nat, pend: multiset<nat>)
    requires Kept(g, s0, pend) && PendInside(s0, pend) && Grew(s0, s1, clusters, META) && off == |s0.m.hosts| && 0 < clusters
    requires forall n: nat | s0.m.refFirst <= n < s0.m.refFirst + s0.m.refClusters :: pend[n] == 0
    requires Kept(g, s1, pend + Run(off, clusters)) && DirtyOk(g, s1) && |s0.m.refTable| + added == Times(g.per, clusters)
    ensures |s1.m.refTable| == |s1.refDirty| && s1.m.refTable == s0.m.refTable && |s1.m.hosts| == off + clusters
    ensures TableNow(g, s0, MoveTable(g, s1, off, clusters, added), off, clusters, pend)
  {
    hide Kept, PendInside, DirtyOk, Grew, Run, Expected, Moved, Times, Spare;
    KeptSizes(g, s0, pend);
    KeptSizes(g, s1, pend + Run(off, clusters));
    MoveReady(g, s0, s1, off, clusters, pend);
    GrewSizes(s0, s1, clusters, META);
    DirtyMove(g, s1, off, clusters, added);
    MoveKeeps(g, s1, off, clusters, added, pend);
    MoveDone(g, s0, s1, off, clusters, added, pend);
    RelocateSame(g, s0, s1, MoveTable(g, s1, off, clusters, added), off, clusters, added, pend);
  }

  /** The clusters just appended can take the new table. */
  lemma MoveReady(g: Geo, s0: State, s1: State, off: nat, clusters: nat, pend: multiset<nat>)
    requires Kept(g, s0, pend) && Grew(s0, s1, clusters, META) && off == |s0.m.hosts| && Kept(g, s1, pend + Run(off, clusters))
    ensures 0 < off && off + clusters <= |s1.m.hosts| && s1.m.refTable == s0.m.refTable && |s1.refDirty| == |s1.m.refTable|
    ensures forall n | off <= n < off + clusters :: Spare(g, s1.m, n)
    ensures s1.m.refFirst == s0.m.refFirst && s1.m.refClusters == s0.m.refClusters && s1.m.l1 == s0.m.l1 && 0 < g.per
  {
    GrewMap(g, s0, s1, clusters, META);
  }

  /** The old table's clusters are unlinked after the move. */
  lemma MoveDone(g: Geo, s0: State, s1: State, off: nat, clusters: nat, added: nat, pend: multiset<nat>)
    requires Kept(g, s0, pend) && Grew(s0, s1, clusters, META) && off == |s0.m.hosts| && Kept(g, s1, pend + Run(off, clusters))
    requires forall n: nat | s0.m.refFirst <= n < s0.m.refFirst + s0.m.refClusters :: pend[n] == 0
    ensures |s1.m.refTable| == |s1.refDirty|
    ensures forall n: nat | s0.m.refFirst <= n < s0.m.refFirst + s0.m.refClusters ::
      Expected(g, MoveTable(g, s1, off, clusters, added).m, n) == 0 && pend[n] == 0
  {
    hide DataRefs, Occ, OccN, MetaRefs, Flags, Tagged, TablesOk, Below;
    KeptSizes(g, s1, pend + Run(off, clusters));
    KeptSizes(g, s0, pend);
    forall n: nat | s0.m.refFirst <= n < s0.m.refFirst + s0.m.refClusters
      ensures Expected(g, MoveTable(g, s1, off, clusters, added).m, n) == 0
    {
      TableOnce(g, s1.m, n);
      MoveExpected(g, s1, off, clusters, added, n);
    }
  }

  /** A cluster of the refcount table has exactly that one reference. */
  lemma TableOnce(g: Geo, m: Map, n: nat)
    requires MapOk(g, m) && m.refFirst <= n < m.refFirst + m.refClusters
    ensures Expected(g, m, n) == 1
  {
    hide DataRefs, Occ, OccN;
    assert AloneAt(g, m, n);
  }

  /** A relocation appended clusters, kept the map, and left the new table's clusters settled. */
  ghost predicate Moved(m: Map, m': Map, pend: multiset<nat>) {
    && SameMap(m, m') && |m.hosts| < |m'.hosts|
    && forall n: nat | m'.refFirst <= n < m'.refFirst + m'.refClusters :: pend[n] == 0
  }

  lemma RelocateSame(g: Geo, s0: State, s1: State, s3: State, off: nat, clusters: nat, added: nat, pend: multiset<nat>)
    requires Kept(g, s0, pend) && PendInside(s0, pend) && Grew(s0, s1, clusters, META) && off == |s0.m.hosts| && 0 < clusters
    requires |s1.m.refTable| == |s1.refDirty| && s3.m == MoveTable(g, s1, off, clusters, added).m && |s3.refs| == |s1.refs|
    ensures Moved(s0.m, s3.m, pend) && |s3.m.hosts| == |s3.refs| == off + clusters
  {
    hide DataRefs, Occ, OccN, MetaRefs, Flags, Tagged, Below, Tracked;
    HostsKept(g, s0.m, s3.m);
  }

  lemma LinkReady(g: Geo, s0: State, s1: State, b: nat, pend: multiset<nat>)
    requires Kept(g, s0, pend) && Grew(s0, s1, 1, META) && b == |s0.m.hosts| && Kept(g, s1, pend + Run(b, 1))
    ensures Spare(g, s1.m, b) && Kept(g, s1, pend + multiset{b}) && s1.m.refTable == s0.m.refTable
    ensures |s1.refDirty| == |s1.m.refTable|
  {
    hide DataRefs, Occ, OccN, MetaRefs, Flags, Tagged, Below, Tracked, Expected;
    GrewMap(g, s0, s1, 1, META);
    assert Run(b, 1) == multiset{b};
    KeptSizes(g, s1, pend + Run(b, 1));
  }

  lemma LinkSame(g: Geo, s0: State, s1: State, s2: State, pend: multiset<nat>)
    requires Kept(g, s0, pend) && PendInside(s0, pend) && Grew(s0, s1, 1, META)
    requires s2.m.hosts == s1.m.hosts && s2.m.l1 == s1.m.l1 && s2.refs == s1.refs
    ensures SameMap(s0.m, s2.m) && PendInside(s2, pend) && |s2.m.hosts| == |s0.m.hosts| + 1
  {
    hide DataRefs, Occ, OccN, MetaRefs, Flags, Tagged, Below, Tracked, Expected;
    HostsKept(g, s0.m, s2.m);
  }

  /** A different number of blocks is needed only when there are more clusters. */
  lemma BlocksGrew(rb: nat, limit: nat, a: nat, limit': nat, b: nat)
    requires limit <= limit' && a != b
    requires (forall i: nat :: Times(rb, i) < limit <==> i < a) && (forall i: nat :: Times(rb, i) < limit' <==> i < b)
    ensures limit < limit'
  {
    hide Times;
    assert Times(rb, a) < limit' <==> a < b;
    assert Times(rb, b) < limit <==> b < a;
    assert !(Times(rb, a) < limit) && !(Times(rb, b) < limit');
  }

  /** Nothing is left to write but the header's dirty bit. */
  ghost predicate Flushed(s: State) {
    (forall i | 0 <= i < |s.refDirty| :: !s.refDirty[i]) && !s.tableDirty && !s.tableMoved
  }

  /** Only header, L1, refcount table and refcount blocks were written. */
  ghost predicate OnlyMeta(g: Geo, m: Map, m': Map) {
    && m' == m.(hosts := m'.hosts) && |m'.hosts| == |m.hosts|
    && forall n: nat | n < |m.hosts| :: KeptHost(g, m, m', n)
  }

  predicate KeptHost(g: Geo, m: Map, m': Map, n: nat)
    requires n < |m.hosts| == |m'.hosts|
  {
    m'.hosts[n] == m.hosts[n] || MetaRefs(g, m, n) > 0
  }

  lemma OnlyMetaSelf(g: Geo, m: Map)
    ensures OnlyMeta(g, m, m)
  {
  }

  lemma OnlyMetaTwice(g: Geo, m: Map, m1: Map, m2: Map)
    requires OnlyMeta(g, m, m1) && OnlyMeta(g, m1, m2)
    ensures OnlyMeta(g, m, m2)
  {
    forall n: nat | n < |m.hosts| ensures KeptHost(g, m, m2, n) {
      assert KeptHost(g, m, m1, n) && KeptHost(g, m1, m2, n);
      SameMeta(g, m, m1, n);
    }
  }

  lemma OnlyMetaSame(g: Geo, m: Map, m': Map)
    requires MapOk(g, m) && OnlyMeta(g, m, m')
    ensures SameMap(m, m')
  {
    hide DataRefs, Occ, MetaRefs, SameMap, TablesOk;
    forall n: nat | 0 < n < |m.hosts| ensures m'.hosts[n] == m.hosts[n] || Unmapped(m, n) {
      assert KeptHost(g, m, m', n) && AloneAt(g, m, n);
    }
    HostsKept(g, m, m');
  }

  lemma BlockMeta(g: Geo, m: Map, s: State, i: nat, c: Cluster, pend: multiset<nat>)
    requires Core(g, s, pend) && OnlyMeta(g, m, s.m) && i < |s.m.refTable| && s.m.refTable[i] != 0
    ensures s.m.refTable[i] < |s.m.hosts| && OnlyMeta(g, m, s.m.(hosts := s.m.hosts[s.m.refTable[i] := c]))
  {
    hide DataRefs, Occ, OccN, Flags, Tagged, Below, Tracked, Expected;
    var b := s.m.refTable[i];
    OccNOne(s.m.refTable, i, b);
    var m' := s.m.(hosts := s.m.hosts[b := c]);
    forall n: nat | n < |m.hosts| ensures KeptHost(g, m, m', n) {
      assert KeptHost(g, m, s.m, n);
    }
  }

  lemma ChunkMeta(g: Geo, m: Map, s: State, k: nat, c: Cluster, pend: multiset<nat>)
    requires Core(g, s, pend) && OnlyMeta(g, m, s.m) && k < s.m.refClusters
    ensures s.m.refFirst + k < |s.m.hosts| && OnlyMeta(g, m, s.m.(hosts := s.m.hosts[s.m.refFirst + k := c]))
  {
    hide DataRefs, Occ, OccN, Flags, Tagged, Below, Tracked, Expected;
    var m' := s.m.(hosts := s.m.hosts[s.m.refFirst + k := c]);
    forall n: nat | n < |m.hosts| ensures KeptHost(g, m, m', n) {
      assert KeptHost(g, m, s.m, n);
    }
  }

  lemma TableFlushed(g: Geo, s: State, pend: multiset<nat>)
    requires Core(g, s, pend) && forall k: nat | k < s.m.refClusters :: ChunkClean(g, s, k)
    ensures Core(g, s.(tableDirty := false), pend)
  {
    hide DataRefs, Occ, OccN, MetaRefs, Flags, Below, Expected, Slice, NoAlias;
    var s' := s.(tableDirty := false);
    forall i | 0 <= i < |s.m.refTable| ensures BlockClean(g, s', i) { assert BlockClean(g, s, i); }
    forall k: nat | k < s.m.refClusters ensures ChunkClean(g, s', k) { assert ChunkClean(g, s, k); }
    forall n: nat | 0 < n < |s.tags| ensures TagOk(g, s'.m, s'.tags, n) { assert TagOk(g, s.m, s.tags, n); }
  }

  lemma HeaderWritten(g: Geo, s: State, s': State, pend: multiset<nat>)
    requires Core(g, s, pend) && s' == s.(hdrFirst := s.m.refFirst, hdrClusters := s.m.refClusters, tableMoved := false)
    ensures Core(g, s', pend)
  {
    hide DataRefs, Occ, OccN, MetaRefs, Flags, Below, Expected, Slice, NoAlias;
    forall i | 0 <= i < |s.m.refTable| ensures BlockClean(g, s', i) { assert BlockClean(g, s, i); }
    forall k: nat | k < s.m.refClusters && !s.tableDirty ensures ChunkClean(g, s', k) { assert ChunkClean(g, s, k); }
    forall n: nat | 0 < n < |s.tags| ensures TagOk(g, s'.m, s'.tags, n) { assert TagOk(g, s.m, s.tags, n); }
  }

  /** Every counted cluster has a refcount block. */
  ghost predicate RefsCovered(g: Geo, s: State)
    requires 0 < g.per
  {
    forall n: nat | n < |s.refs| && s.refs[n] != 0 :: BlockOf(g, s, n)
  }

  predicate BlockOf(g: Geo, s: State, n: nat)
    requires 0 < g.per
  {
    var i := Quot(PerBlock(g), n);
    i < |s.m.refTable| && s.m.refTable[i] != 0
  }

  /** The state between two operations. */
  ghost predicate Ready(g: Geo, s: State, pend: multiset<nat>) {
    && Kept(g, s, pend) && PendInside(s, pend) && RefsCovered(g, s) && Linked(s)
    && forall n: nat | s.m.refFirst <= n < s.m.refFirst + s.m.refClusters :: pend[n] == 0
  }

  ghost predicate NewCluster(g: Geo, s: State, off: nat, c: Cluster, tag: nat) {
    && Spare(g, s.m, off) && off < |s.refs| && off < |s.tags|
    && s.m.hosts[off] == c && s.refs[off] == 1 && s.tags[off] == tag
  }

  lemma CoveredAll(g: Geo, s: State, limit: nat)
    requires 0 < g.per && Covered(g, s, limit) && |s.refs| <= limit
    ensures RefsCovered(g, s)
  {
    hide Times, Quot;
    forall n: nat | n < |s.refs| && s.refs[n] != 0 ensures BlockOf(g, s, n) {
      assert Times(PerBlock(g), Quot(PerBlock(g), n)) < limit;
    }
  }

  lemma NewReady(g: Geo, s1: State, s2: State, off: nat, tag: nat, pend: multiset<nat>)
    requires Kept(g, s1, pend) && Grew(s1, s2, 1, tag) && off == |s1.m.hosts| && Kept(g, s2, pend + Run(off, 1))
    ensures Kept(g, s2, pend + multiset{off}) && Spare(g, s2.m, off) && SameMap(s1.m, s2.m)
    ensures off < |s2.refs| && s2.refs[off] == 1 && off < |s2.tags| && s2.tags[off] == tag && |s2.m.hosts| == off + 1
  {
    hide DataRefs, Occ, OccN, MetaRefs, Flags, Tagged, Below, Tracked, Expected, SameMap;
    assert Run(off, 1) == multiset{off};
    GrewMap(g, s1, s2, 1, tag);
  }

  /** A new cluster is in place and counted, but not linked. */
  ghost predicate Placed(g: Geo, s1: State, s3: State, off: nat, c: Cluster, tag: nat, pend: multiset<nat>) {
    && Kept(g, s3, pend + multiset{off}) && PendInside(s3, pend + multiset{off}) && RefsCovered(g, s3) && SameMap(s1.m, s3.m)
    && (forall n: nat | s3.m.refFirst <= n < s3.m.refFirst + s3.m.refClusters :: pend[n] == 0)
    && NewCluster(g, s3, off, c, tag) && |s3.m.hosts| <= MAX_CLUSTERS
  }

  lemma PlacedHere(g: Geo, s1: State, s2: State, off: nat, c: Cluster, tag: nat, pend: multiset<nat>)
    requires SameMap(s1.m, s2.m) && Kept(g, s2, pend + multiset{off}) && PendInside(s2, pend + multiset{off})
    requires Spare(g, s2.m, off) && off < |s2.refs| && s2.refs[off] == 1 && off < |s2.tags| && s2.tags[off] == tag && |s2.m.hosts| <= MAX_CLUSTERS
    requires Linked(s2)
    requires 0 < g.per && RefsCovered(g, s2) && forall n: nat | s2.m.refFirst <= n < s2.m.refFirst + s2.m.refClusters :: pend[n] == 0
    ensures Placed(g, s1, s2.(m := s2.m.(hosts := s2.m.hosts[off := c])), off, c, tag, pend)
    ensures Linked(s2.(m := s2.m.(hosts := s2.m.hosts[off := c])))
  {
    hide DataRefs, Occ, OccN, Flags, Tagged, Below, Tracked, Expected, TablesOk, NoAlias, SameMap, MetaRefs, Counted;
    var s3 := s2.(m := s2.m.(hosts := s2.m.hosts[off := c]));
    NewContents(g, s2, off, c, pend + multiset{off});
    SpareAlone(g, s2.m, off);
    HostsKept(g, s2.m, s3.m);
    SameMapTwice(s1.m, s2.m, s3.m);
    forall n: nat | n < |s3.refs| && s3.refs[n] != 0 ensures BlockOf(g, s3, n) { assert BlockOf(g, s2, n); }
  }

  lemma PlacedKept(g: Geo, s1: State, s3: State, off: nat, c: Cluster, tag: nat, pend: multiset<nat>)
    requires Placed(g, s1, s3, off, c, tag, pend)
    ensures Kept(g, s3, pend + multiset{off})
  {
  }

  lemma NewDone(g: Geo, s0: State, s1: State, s3: State, s4: State, off: nat, c: Cluster, tag: nat, pend: multiset<nat>)
    requires SameMap(s0.m, s1.m) && Placed(g, s1, s3, off, c, tag, pend)
    requires Kept(g, s4, pend + multiset{off}) && OnlyMeta(g, s3.m, s4.m) && s4.refs == s3.refs && s4.tags == s3.tags && Flushed(s4)
    ensures Ready(g, s4, pend + multiset{off}) && SameMap(s0.m, s4.m) && NewCluster(g, s4, off, c, tag)
    ensures |s4.m.hosts| <= MAX_CLUSTERS
  {
    hide DataRefs, Occ, OccN, Flags, Tagged, Below, Tracked, Expected, TablesOk, NoAlias, SameMap, MetaRefs, Counted;
    OnlyMetaSame(g, s3.m, s4.m);
    SameMapTwice(s0.m, s1.m, s3.m);
    SameMapTwice(s0.m, s3.m, s4.m);
    assert KeptHost(g, s3.m, s4.m, off);
    SpareAlone(g, s3.m, off);
    SpareStays(g, s3.m, s4.m, off);
    SpareMeta(g, s3.m, off);
    forall n: nat | n < |s4.refs| && s4.refs[n] != 0 ensures BlockOf(g, s4, n) { assert BlockOf(g, s3, n); }
  }

  lemma SpareStays(g: Geo, m: Map, m': Map, n: nat)
    requires MapOk(g, m) && OnlyMeta(g, m, m') && Spare(g, m, n)
    ensures Spare(g, m', n)
  {
    hide Occ, OccN;
    OnlyMetaSame(g, m, m');
    forall i | 0 <= i < |m.l1| ensures Below(m'.hosts, m'.l1[i]) == Below(m.hosts, m.l1[i]) {
      assert SameRow(m, m', i);
    }
    DataRefsFrame(m.hosts, m'.hosts, m.l1, n);
  }

  lemma NewCovered(g: Geo, s1: State, s2: State, off: nat, tag: nat, pend: multiset<nat>)
    requires Kept(g, s1, pend) && PendInside(s1, pend) && Covered(g, s1, |s1.m.hosts| + 1) && Grew(s1, s2, 1, tag) && off == |s1.m.hosts|
    requires forall n: nat | s1.m.refFirst <= n < s1.m.refFirst + s1.m.refClusters :: pend[n] == 0
    requires DirtyOk(g, s2)
    ensures 0 < g.per && RefsCovered(g, s2) && PendInside(s2, pend + multiset{off}) && Linked(s2)
    ensures forall n: nat | s2.m.refFirst <= n < s2.m.refFirst + s2.m.refClusters :: pend[n] == 0
  {
    hide DataRefs, Occ, OccN, Flags, Tagged, Below, Tracked, Expected, TablesOk, NoAlias, MetaRefs;
    CoveredAll(g, s2, |s1.m.hosts| + 1);
    DirtyCovered(g, s2, |s1.m.hosts| + 1);
  }

  /** Flags are in the tables, which a flush does not write. */
  lemma FlagsFollow(g: Geo, s: State, s': State, pend: multiset<nat>)
    requires Core(g, s, pend) && Core(g, s', pend) && OnlyMeta(g, s.m, s'.m) && s'.refs == s.refs
    ensures Flags(s.m, s.refs) ==> Kept(g, s', pend)
    ensures forall n: nat :: FlagsBut(s.m, s.refs, n) ==> KeptBut(g, s', pend, n)
  {
    hide DataRefs, Occ, OccN, Below, Core, MetaRefs, RowFlags, RowFlagsBut;
    assert MapOk(g, s.m) by { CoreSizes(g, s, pend); }
    OnlyMetaSame(g, s.m, s'.m);
    forall i | 0 <= i < |s.m.l1| ensures Below(s'.m.hosts, s'.m.l1[i]) == Below(s.m.hosts, s.m.l1[i]) {
      RowFollows(s.m, s'.m, i);
    }
  }

  lemma RowFollows(m: Map, m': Map, i: nat)
    requires SameMap(m, m') && i < |m.l1|
    ensures Below(m'.hosts, m'.l1[i]) == Below(m.hosts, m.l1[i])
  {
    assert SameRow(m, m', i);
  }

  // ----- the same pointers -----

  /** Every entry keeps its pointer and its zero flag, and every data cluster its bytes. */
  ghost predicate SameShape(g: Geo, m: Map, m': Map) {
    && 0 < g.per && |m'.l1| == |m.l1| && |m'.hosts| == |m.hosts| && m'.refTable == m.refTable && m'.refFirst == m.refFirst
    && m'.refClusters == m.refClusters
    && (forall i | 0 <= i < |m.l1| :: m'.l1[i].off == m.l1[i].off)
    && (forall i: nat | i < |m.hosts| :: HostShape(m, m', i))
    && SameView(g, m, m')
  }

  /** A cluster is unchanged, or is an L2 table with the same pointers. */
  ghost predicate HostShape(m: Map, m': Map, i: nat)
    requires i < |m.hosts| == |m'.hosts|
  {
    || m'.hosts[i] == m.hosts[i]
    || (m.hosts[i].Table? && m'.hosts[i].Table? && |m'.hosts[i].es| == |m.hosts[i].es|
        && forall j | 0 <= j < |m.hosts[i].es| :: m'.hosts[i].es[j].off == m.hosts[i].es[j].off)
  }

  lemma ViewSelf(g: Geo, m: Map)
    requires MapOk(g, m)
    ensures SameView(g, m, m)
  {
    SameMapSelf(g, m);
    SameMapView(g, m, m);
  }

  lemma ViewTwice(g: Geo, m: Map, m1: Map, m2: Map)
    requires 0 < g.per && SameView(g, m, m1) && SameView(g, m1, m2)
    ensures SameView(g, m, m2)
  {
    forall c: nat ensures SameCluster(g, m, m2, c) {
      assert SameCluster(g, m, m1, c) && SameCluster(g, m1, m2, c);
    }
  }

  lemma ShapeSelf(g: Geo, s: State, pend: multiset<nat>, n: nat)
    requires KeptBut(g, s, pend, n)
    ensures SameShape(g, s.m, s.m) && |s.diskL1| == |s.m.l1|
  {
    CoreSizes(g, s, pend);
    ViewSelf(g, s.m);
  }

  lemma ShapeRoot(g: Geo, m: Map, s: State, i: nat)
    requires SameShape(g, m, s.m) && i < |s.m.l1| == |s.diskL1| && SameView(g, s.m, FlagRoot(s, i).m)
    ensures SameShape(g, m, FlagRoot(s, i).m)
  {
    var m' := FlagRoot(s, i).m;
    ViewTwice(g, m, s.m, m');
    forall k: nat | k < |m.hosts| ensures HostShape(m, m', k) { assert HostShape(m, s.m, k); }
  }

  lemma ShapeEntry(g: Geo, m: Map, s: State, t: nat, j: nat)
    requires SameShape(g, m, s.m) && t < |s.m.hosts| && s.m.hosts[t].Table? && j < |s.m.hosts[t].es|
    requires SameView(g, s.m, FlagEntry(s, t, j).m)
    ensures SameShape(g, m, FlagEntry(s, t, j).m)
  {
    var m' := FlagEntry(s, t, j).m;
    ViewTwice(g, m, s.m, m');
    forall k: nat | k < |m.hosts| ensures HostShape(m, m', k) { assert HostShape(m, s.m, k); }
  }

  lemma EmptyRow(hosts: seq<Cluster>, e: Entry, n: nat)
    requires e.off == 0
    ensures RowSet(Below(hosts, e), n)
  {
  }

  lemma RowComplete(hosts: seq<Cluster>, e: Entry, n: nat)
    requires forall x | 0 <= x < |Below(hosts, e)| :: Below(hosts, e)[x].off == n ==> Below(hosts, e)[x].copied
    ensures RowSet(Below(hosts, e), n)
  {
  }

  lemma RowAt(g: Geo, s: State, pend: multiset<nat>, n: nat, i: nat)
    requires KeptBut(g, s, pend, n) && i < |s.m.l1| && s.m.l1[i].off != 0
    ensures var t := s.m.l1[i].off;
      0 < t < |s.m.hosts| && s.m.hosts[t].Table? && |s.m.hosts[t].es| == g.per && Below(s.m.hosts, s.m.l1[i]) == s.m.hosts[t].es && MetaRefs(g, s.m, t) == 0
  {
    CoreSizes(g, s, pend);
    TableNotMeta(g, s.m, i);
  }

  /** The rows before `i` are done, and the first `j` entries of row `i`. */
  ghost predicate RowPart(g: Geo, s: State, pend: multiset<nat>, n: nat, m: Map, i: nat, j: nat) {
    && KeptBut(g, s, pend, n) && SameShape(g, m, s.m) && i < |s.m.l1|
    && (forall k | 0 <= k < i :: RowSet(Below(s.m.hosts, s.m.l1[k]), n))
    && var t := s.m.l1[i].off;
      && 0 < t < |s.m.hosts| && s.m.hosts[t].Table? && |s.m.hosts[t].es| == g.per
      && Below(s.m.hosts, s.m.l1[i]) == s.m.hosts[t].es && MetaRefs(g, s.m, t) == 0
      && forall x | 0 <= x < j && x < g.per :: s.m.hosts[t].es[x].off == n ==> s.m.hosts[t].es[x].copied
  }

  lemma RowPartFirst(g: Geo, s: State, pend: multiset<nat>, n: nat, m: Map, i: nat)
    requires KeptBut(g, s, pend, n) && SameShape(g, m, s.m) && i < |s.m.l1| && s.m.l1[i].off != 0
    requires forall k | 0 <= k < i :: RowSet(Below(s.m.hosts, s.m.l1[k]), n)
    ensures RowPart(g, s, pend, n, m, i, 0)
  {
    hide KeptBut, SameShape, Below, RowSet, MetaRefs;
    RowAt(g, s, pend, n, i);
  }

  lemma RowPartNext(g: Geo, s: State, pend: multiset<nat>, n: nat, m: Map, i: nat, j: nat)
    requires RowPart(g, s, pend, n, m, i, j) && j < g.per && n != 0
    ensures i < |s.m.l1| && s.m.l1[i].off < |s.m.hosts| && s.m.hosts[s.m.l1[i].off].Table? && j < |s.m.hosts[s.m.l1[i].off].es|
    ensures var t := s.m.l1[i].off; var s' := if s.m.hosts[t].es[j].off == n then FlagEntry(s, t, j) else s;
      RowPart(g, s', pend, n, m, i, j + 1)
  {
    hide KeptBut, SameShape, Below, RowSet, MetaRefs;
    var t := s.m.l1[i].off;
    if s.m.hosts[t].es[j].off == n {
      FlagEntryKeeps(g, s, t, j, n, pend);
      ShapeEntry(g, m, s, t, j);
      RowsStay(s, t, j, n, i);
      RowAt(g, FlagEntry(s, t, j), pend, n, i);
    }
  }

  lemma RowPartLast(g: Geo, s: State, pend: multiset<nat>, n: nat, m: Map, i: nat)
    requires RowPart(g, s, pend, n, m, i, g.per)
    ensures KeptBut(g, s, pend, n) && SameShape(g, m, s.m) && i < |s.m.l1|
    ensures forall k | 0 <= k <= i :: RowSet(Below(s.m.hosts, s.m.l1[k]), n)
  {
    hide KeptBut, SameShape, Below, RowSet, MetaRefs;
    RowComplete(s.m.hosts, s.m.l1[i], n);
  }

  /** Setting a flag never clears another. */
  lemma RowsStay(s: State, t: nat, j: nat, n: nat, i: nat)
    requires 0 < t < |s.m.hosts| && s.m.hosts[t].Table? && j < |s.m.hosts[t].es| && i <= |s.m.l1|
    requires forall k | 0 <= k < i :: RowSet(Below(s.m.hosts, s.m.l1[k]), n)
    ensures forall k | 0 <= k < i :: RowSet(Below(FlagEntry(s, t, j).m.hosts, s.m.l1[k]), n)
  {
    hide Below;
    forall k | 0 <= k < i ensures RowSet(Below(FlagEntry(s, t, j).m.hosts, s.m.l1[k]), n) {
      EntryFlagBelow(s.m.hosts, t, j, s.m.l1[k]);
      assert RowSet(Below(s.m.hosts, s.m.l1[k]), n);
    }
  }

  lemma NoRowFor(m: Map, n: nat)
    ensures Occ(m.l1, n) == 0 ==> RowSet(m.l1, n)
    ensures DataRefs(m.hosts, m.l1, n) == 0 ==> forall i | 0 <= i < |m.l1| :: RowSet(Below(m.hosts, m.l1[i]), n)
  {
    hide Below, Occ, DataRefs;
    if Occ(m.l1, n) == 0 {
      forall j | 0 <= j < |m.l1| ensures m.l1[j].off != n {
        if m.l1[j].off == n { OccOne(m.l1, j, n); }
      }
    }
    if DataRefs(m.hosts, m.l1, n) == 0 {
      forall i | 0 <= i < |m.l1| ensures RowSet(Below(m.hosts, m.l1[i]), n) {
        forall j | 0 <= j < |Below(m.hosts, m.l1[i])| ensures Below(m.hosts, m.l1[i])[j].off != n {
          if Below(m.hosts, m.l1[i])[j].off == n { DataRefsOne(m.hosts, m.l1, i, j, n); }
        }
      }
    }
  }

  /** Flagging L1 entries leaves the rows as they were. */
  lemma RowsKept(g: Geo, m: Map, s: State, pend: multiset<nat>, n: nat)
    requires SameShape(g, m, s.m) && s.m.hosts == m.hosts && forall i | 0 <= i < |m.l1| :: RowSet(Below(m.hosts, m.l1[i]), n)
    ensures forall i | 0 <= i < |s.m.l1| :: RowSet(Below(s.m.hosts, s.m.l1[i]), n)
  {
    hide Below;
    forall i | 0 <= i < |s.m.l1| ensures RowSet(Below(s.m.hosts, s.m.l1[i]), n) {
      BelowOff(m.hosts, m.l1[i], s.m.l1[i]);
    }
  }

  // ----- dropping one reference -----

  /** What a dropped reference leaves as it was. */
  ghost predicate Dropped(g: Geo, s: State, s': State, n: nat) {
    && 0 < g.per && SameView(g, s.m, s'.m) && |s'.m.l1| == |s.m.l1| && |s'.m.hosts| == |s.m.hosts|
    && (forall i | 0 <= i < |s.m.l1| :: s'.m.l1[i].off == s.m.l1[i].off)
    && |s'.refs| == |s.refs| && (n < |s.refs| ==> s'.refs[n] + 1 == s.refs[n])
    && forall k: nat | k < |s.refs| && k != n :: s'.refs[k] == s.refs[k]
  }

  lemma DropReady(g: Geo, s: State, n: nat, pend: multiset<nat>)
    requires Ready(g, s, pend + multiset{n}) && 0 < n < |s.refs|
    ensures 0 < g.per && n < |s.refs| == |s.tags| && 0 < s.refs[n]
    ensures Core(g, Drop(g, s, n), pend) && Linked(Drop(g, s, n))
  {
    hide Core, KeptBut, Flags, Quot;
    KeptSizes(g, s, pend + multiset{n});
    DropKeeps(g, s, n, pend);
    assert BlockOf(g, s, n);
    CoreOfBut(g, Drop(g, s, n), pend, n);
  }

  lemma CoreOfBut(g: Geo, s: State, pend: multiset<nat>, n: nat)
    requires KeptBut(g, s, pend, n)
    ensures Core(g, s, pend)
  {
  }

  /** When the count did not become one, no flag is stale. */
  lemma DropQuiet(g: Geo, s: State, n: nat, pend: multiset<nat>)
    requires Kept(g, s, pend + multiset{n}) && 0 < n < |s.refs| == |s.tags| && 0 < s.refs[n] && s.refs[n] != 2 && 0 < g.per && pend[n] == 0
    ensures KeptBut(g, Drop(g, s, n), pend, n) && Kept(g, Drop(g, s, n), pend)
  {
    hide DataRefs, Occ, OccN, MetaRefs, Tracked, Below, Mark, MapOk;
    DropKeeps(g, s, n, pend);
    var s' := Drop(g, s, n);
    if s.refs[n] == 1 {
      SpareAlone(g, s.m, n);
      NoOldRows(s'.m, n);
    } else {
      OldRows(s.m, s.refs, n);
    }
    DropDone(g, s', pend, n);
  }

  lemma OldRows(m: Map, refs: seq<nat>, n: nat)
    requires Flags(m, refs) && 0 < n < |refs| && refs[n] != 1
    ensures RowOld(m.l1, n) && forall i | 0 <= i < |m.l1| :: RowOld(Below(m.hosts, m.l1[i]), n)
  {
    hide Below;
    RowIsOld(refs, m.l1, n);
    forall i | 0 <= i < |m.l1| ensures RowOld(Below(m.hosts, m.l1[i]), n) {
      RowIsOld(refs, Below(m.hosts, m.l1[i]), n);
    }
  }

  lemma RowIsOld(refs: seq<nat>, es: seq<Entry>, n: nat)
    requires RowFlags(refs, es) && 0 < n < |refs| && refs[n] != 1
    ensures RowOld(es, n)
  {
    forall j | 0 <= j < |es| && es[j].off == n ensures !es[j].copied {
      assert FlagOk(refs, es[j]);
    }
  }

  /** After the flush: settled, or one flag refresh away from it. */
  lemma DropFlushed(g: Geo, s0: State, s1: State, s2: State, n: nat, pend: multiset<nat>)
    requires Ready(g, s0, pend + multiset{n}) && 0 < n < |s0.refs| == |s0.tags| && 0 < s0.refs[n] && 0 < g.per && pend[n] == 0
    requires MetaRefs(g, s0.m, n) == 0 && s1 == Drop(g, s0, n)
    requires Core(g, s2, pend) && OnlyMeta(g, s1.m, s2.m) && s2.refs == s1.refs && s2.tags == s1.tags
    ensures KeptBut(g, s2, pend, n) && |s2.refs| == |s0.refs| && (s2.refs[n] != 1 ==> Kept(g, s2, pend))
    ensures s2.refs[n] == 1 ==> s0.tags[n] in {DATA, L2}
    ensures s2.refs[n] == 1 ==> if s0.tags[n] == L2 then DataRefs(s2.m.hosts, s2.m.l1, n) == 0 else Occ(s2.m.l1, n) == 0
  {
    hide DataRefs, Occ, OccN, Tracked, Below, Mark, MapOk, Flags, FlagsBut, SameView, OnlyMeta, Expected;
    DropKeeps(g, s0, n, pend);
    CoreOfBut(g, s1, pend, n);
    FlagsFollow(g, s1, s2, pend);
    if s2.refs[n] != 1 {
      DropQuiet(g, s0, n, pend);
    } else {
      DropTag(g, s0, s2, n, pend);
    }
  }

  lemma DropTag(g: Geo, s0: State, s2: State, n: nat, pend: multiset<nat>)
    requires Core(g, s0, pend + multiset{n}) && Core(g, s2, pend) && 0 < n < |s0.refs| == |s0.tags| && pend[n] == 0
    requires OnlyMeta(g, s0.m, s2.m) && MetaRefs(g, s0.m, n) == 0 && |s2.refs| == |s0.refs| && s2.refs[n] == 1 && s0.refs[n] == 2
    ensures s0.tags[n] in {DATA, L2}
    ensures if s0.tags[n] == L2 then DataRefs(s2.m.hosts, s2.m.l1, n) == 0 else Occ(s2.m.l1, n) == 0
  {
    hide DataRefs, Occ, OccN, Tracked, Below, MapOk, MetaRefs;
    CoreSizes(g, s0, pend + multiset{n});
    OnlyMetaRefs(g, s0.m, s2.m, n);
    SameMeta(g, s0.m, s2.m, n);
    assert s2.refs[n] == Expected(g, s2.m, n) + pend[n];
    assert TagOk(g, s0.m, s0.tags, n);
  }

  lemma OnlyMetaRefs(g: Geo, m: Map, m': Map, n: nat)
    requires MapOk(g, m) && OnlyMeta(g, m, m')
    ensures DataRefs(m'.hosts, m'.l1, n) == DataRefs(m.hosts, m.l1, n) && m'.l1 == m.l1
  {
    hide DataRefs, Occ, OccN, Below, OnlyMeta, MapOk;
    OnlyMetaSame(g, m, m');
    forall i | 0 <= i < |m.l1| ensures Below(m'.hosts, m'.l1[i]) == Below(m.hosts, m.l1[i]) {
      RowFollows(m, m', i);
    }
    SameMapL1(m, m');
    DataRefsFrame(m.hosts, m'.hosts, m.l1, n);
  }

  lemma SameMapL1(m: Map, m': Map)
    requires SameMap(m, m')
    ensures m'.l1 == m.l1 && |m.hosts| <= |m'.hosts|
  {
  }

  lemma DropSettled(g: Geo, s0: State, s1: State, s2: State, s3: State, n: nat, pend: multiset<nat>)
    requires Ready(g, s0, pend + multiset{n}) && 0 < n < |s0.refs| == |s0.tags| && 0 < s0.refs[n] && 0 < g.per && s1 == Drop(g, s0, n)
    requires Core(g, s2, pend) && OnlyMeta(g, s1.m, s2.m) && s2.refs == s1.refs && Flushed(s2)
    requires Kept(g, s3, pend) && SameShape(g, s2.m, s3.m) && s3.refs == s2.refs && s3.refDirty == s2.refDirty
    ensures Ready(g, s3, pend) && Dropped(g, s0, s3, n) && SameSizes(s0.m, s3.m)
  {
    hide DataRefs, Occ, OccN, Tracked, Below, Mark, Flags, FlagsBut, Expected, MetaRefs, Tagged, Counted, NoAlias, TablesOk,
      SameView, SameCluster;
    KeptSizes(g, s0, pend + multiset{n});
    OnlyMetaSame(g, s1.m, s2.m);
    SameMapView(g, s1.m, s2.m);
    ViewTwice(g, s1.m, s2.m, s3.m);
    SameMapL1(s1.m, s2.m);
    forall k: nat | s3.m.refFirst <= k < s3.m.refFirst + s3.m.refClusters ensures pend[k] == 0 {
      assert (pend + multiset{n})[k] == 0;
    }
    forall k: nat | |s3.refs| <= k ensures pend[k] == 0 {
      assert (pend + multiset{n})[k] == 0;
    }
    forall k: nat | k < |s3.refs| && s3.refs[k] != 0 ensures BlockOf(g, s3, k) { assert BlockOf(g, s0, k); }
  }

  // ----- a private L2 table -----

  lemma ReadySizes(g: Geo, s: State, pend: multiset<nat>)
    requires Ready(g, s, pend)
    ensures 0 < g.per && |s.refs| == |s.tags| == |s.m.hosts| && s.diskL1 == s.m.l1 && MapOk(g, s.m) && Kept(g, s, pend)
  {
    KeptSizes(g, s, pend);
  }

  lemma TableInside(g: Geo, s: State, pend: multiset<nat>, i: nat)
    requires Ready(g, s, pend) && i < |s.m.l1|
    ensures s.m.l1[i].off < |s.m.hosts| && (s.m.l1[i].off != 0 ==> s.m.hosts[s.m.l1[i].off].Table?)
  {
    ReadySizes(g, s, pend);
    assert RootOk(g, s.m.hosts, s.m.l1[i]);
  }

  /** The new table can replace the old one. */
  lemma TableReady(g: Geo, s0: State, s1: State, i: nat, off: nat, es: seq<Entry>)
    requires Ready(g, s0, multiset{}) && SameMap(s0.m, s1.m) && i < |s0.m.l1|
    requires Ready(g, s1, multiset{} + multiset{off}) && NewCluster(g, s1, off, Table(es), L2)
    requires es == if s0.m.l1[i].off == 0 then seq(g.per, _ => NONE) else Below(s0.m.hosts, s0.m.l1[i])
    ensures i < |s1.m.l1| == |s1.diskL1| && s1.m.l1 == s0.m.l1 && CopiedRow(g, s1.m, i, off) && 0 < off
  {
    hide Kept, Expected, Occ, DataRefs, MetaRefs, SameRow;
    ReadySizes(g, s1, multiset{} + multiset{off});
    RowFollows(s0.m, s1.m, i);
  }

  /** A counted cluster that an L1 entry reaches. */
  lemma TableCounted(g: Geo, s: State, pend: multiset<nat>, i: nat)
    requires Kept(g, s, pend) && i < |s.m.l1| && s.m.l1[i].off != 0
    ensures var t := s.m.l1[i].off; t < |s.refs| && MetaRefs(g, s.m, t) == 0 && Occ(s.m.l1, t) > 0
  {
    hide Occ, DataRefs, MetaRefs, Expected;
    KeptSizes(g, s, pend);
    TableNotMeta(g, s.m, i);
    OccOne(s.m.l1, i, s.m.l1[i].off);
  }

  lemma TableLinked(g: Geo, s0: State, s1: State, s2: State, i: nat, off: nat, es: seq<Entry>)
    requires Ready(g, s0, multiset{}) && SameMap(s0.m, s1.m) && i < |s0.m.l1|
    requires Ready(g, s1, multiset{} + multiset{off}) && NewCluster(g, s1, off, Table(es), L2)
    requires i < |s1.m.l1| == |s1.diskL1| && s1.m.l1 == s0.m.l1 && CopiedRow(g, s1.m, i, off) && 0 < off
    requires s2 == Retarget(s1, i, off)
    ensures var was := s0.m.l1[i].off;
      && Ready(g, s2, multiset{} + Pending(was)) && SameView(g, s0.m, s2.m)
      && 0 < off < |s2.refs| && s2.refs[off] == 1 && was != off
      && (was != 0 ==> was < |s2.refs| && MetaRefs(g, s2.m, was) == 0)
    ensures s0.m.l1[i].off == 0 ==> Ready(g, s2, multiset{})
    ensures s0.m.l1[i].off != 0 ==> Ready(g, s2, multiset{} + multiset{s0.m.l1[i].off})
  {
    hide Kept, Expected, Occ, DataRefs, MetaRefs, CopiedRow, SameMap, SameView;
    ReadySizes(g, s1, multiset{} + multiset{off});
    RetargetKeeps(g, s1, i, off, multiset{});
    ReadySizes(g, s0, multiset{});
    SameMapView(g, s0.m, s1.m);
    ViewTwice(g, s0.m, s1.m, s2.m);
    var was := s0.m.l1[i].off;
    SpareAlone(g, s1.m, off);
    if was != 0 {
      TableCounted(g, s1, multiset{} + multiset{off}, i);
      SameMeta(g, s1.m, s2.m, was);
    }
    OldInside(g, s1, s2, was, off);
  }

  lemma OldInside(g: Geo, s1: State, s2: State, was: nat, off: nat)
    requires Ready(g, s1, multiset{} + multiset{off}) && s2.refs == s1.refs && s2.m.refTable == s1.m.refTable && s2.m.refFirst == s1.m.refFirst
    requires s2.refDirty == s1.refDirty
    requires s2.m.refClusters == s1.m.refClusters && Kept(g, s2, multiset{} + Pending(was)) && (was != 0 ==> was < |s1.refs| && MetaRefs(g, s1.m, was) == 0)
    ensures Ready(g, s2, multiset{} + Pending(was))
    ensures was == 0 ==> multiset{} + Pending(was) == multiset{}
    ensures was != 0 ==> multiset{} + Pending(was) == multiset{} + multiset{was}
  {
    hide Kept, OccN;
    ReadySizes(g, s1, multiset{} + multiset{off});
    forall n: nat | n < |s2.refs| && s2.refs[n] != 0 ensures BlockOf(g, s2, n) { assert BlockOf(g, s1, n); }
  }

  lemma TableOwned(g: Geo, s0: State, s2: State, s3: State, i: nat, off: nat, was: nat)
    requires Dropped(g, s2, s3, was) && SameView(g, s0.m, s2.m) && i < |s2.m.l1| && s2.m.l1[i].off == off && was != off
    requires off < |s2.refs| && s2.refs[off] == 1 && |s2.m.l1| == |s0.m.l1|
    ensures SameView(g, s0.m, s3.m) && i < |s3.m.l1| == |s0.m.l1| && s3.m.l1[i].off == off && off < |s3.refs| && s3.refs[off] == 1
    ensures |s3.m.hosts| == |s2.m.hosts|
  {
    hide SameView;
    ViewTwice(g, s0.m, s2.m, s3.m);
  }

  // ----- what later parts of a write take -----

  lemma ReadyLinked(g: Geo, s: State, pend: multiset<nat>)
    requires Ready(g, s, pend)
    ensures Linked(s)
  {
    hide Linked;
  }

  /** The position behind a unit is in the next one. */
  lemma NextUnit(k: nat, q: nat, x: nat)
    requires 0 < k && x == Times(k, q) + k
    ensures Quot(k, x) == q + 1
  {
    QuotUnique(k, q + 1, 0);
  }

  /** The guest cluster at hand is one of those counted. */
  lemma NeedsFirst(g: Geo, s: State, pos: nat, n: nat, done: nat)
    requires 0 < g.per && done < n
    ensures var c, end := Quot(ClusterBytes(g), pos + done), Quot(ClusterBytes(g), pos + n - 1) + 1;
      NeedFrom(g, s, c, end) == Need(g, s, c) + NeedRest(g, s, c + 1, end)
  {
    hide Need, NeedRest;
    var cs := ClusterBytes(g);
    var a, b := Quot(cs, pos + done), Quot(cs, pos + n - 1);
    if b < a { TimesMonotone(cs, b, a); }
  }

  lemma LighterSelf(g: Geo, s: State)
    requires 0 < g.per
    ensures Lighter(g, s, s, 0)
  {
  }

  /** A mapped cluster keeps its count while others are appended. */
  lemma MappedCount(g: Geo, s: State, s': State, off: nat, n: nat)
    requires Kept(g, s, multiset{}) && Kept(g, s', multiset{} + multiset{off}) && SameMap(s.m, s'.m)
    requires 0 < n < |s.refs| && !Unmapped(s.m, n) && n != off
    ensures n < |s'.refs| && s'.refs[n] == s.refs[n]
  {
    hide DataRefs, Occ, MetaRefs, Below, Flags, Tagged, Tracked;
    KeptSizes(g, s, multiset{});
    KeptSizes(g, s', multiset{} + multiset{off});
    SameMapL1(s.m, s'.m);
    forall i | 0 <= i < |s.m.l1| ensures Below(s'.m.hosts, s'.m.l1[i]) == Below(s.m.hosts, s.m.l1[i]) {
      RowFollows(s.m, s'.m, i);
    }
    DataRefsFrame(s.m.hosts, s'.m.hosts, s.m.l1, n);
    assert AloneAt(g, s.m, n) && AloneAt(g, s'.m, n);
    assert s.refs[n] == Expected(g, s.m, n) + multiset{}[n];
  }

  lemma RootMapped(g: Geo, m: Map, i: nat)
    requires MapOk(g, m) && i < |m.l1| && m.l1[i].off != 0
    ensures m.l1[i].off < |m.hosts| && !Unmapped(m, m.l1[i].off)
  {
    RowHere(g, m, i);
    if Unmapped(m, m.l1[i].off) { UnmappedEntry(m, m.l1[i].off, i, 0); }
  }

  lemma ClusterMapped(g: Geo, m: Map, c: nat)
    requires MapOk(g, m) && EntryOf(g, m, c).off != 0
    ensures EntryOf(g, m, c).off < |m.hosts| && !Unmapped(m, EntryOf(g, m, c).off)
  {
    hide DataRefs, Occ, Times, Quot, EntryOf;
    DataNotMeta(g, m, c);
    EntryReached(g, m, c);
  }

  /** An allocation changes nothing for the mapped clusters. */
  lemma AllocLighter(g: Geo, s: State, s': State, off: nat)
    requires Ready(g, s, multiset{}) && Ready(g, s', multiset{} + multiset{off}) && SameMap(s.m, s'.m) && Spare(g, s'.m, off)
    ensures 0 < g.per && Lighter(g, s, s', 0)
  {
    hide DataRefs, Occ, MetaRefs, Below, EntryOf, Kept, SameMap, Quot, Times;
    ReadySizes(g, s, multiset{});
    ReadySizes(g, s', multiset{} + multiset{off});
    SameMapL1(s.m, s'.m);
    SpareAlone(g, s'.m, off);
    forall c: nat | NeedsCluster(g, s', c) ensures NeedsCluster(g, s, c) {
      SameMapEntry(g, s.m, s'.m, c);
      var n := EntryOf(g, s.m, c).off;
      if n != 0 {
        ClusterMapped(g, s.m, c);
        ClusterMapped(g, s'.m, c);
        MappedCount(g, s, s', off, n);
      }
    }
    forall i: nat | i < |s.m.l1| && NeedsTable(s', i) ensures NeedsTable(s, i) {
      var n := s.m.l1[i].off;
      if n != 0 {
        RootMapped(g, s.m, i);
        RootMapped(g, s'.m, i);
        MappedCount(g, s, s', off, n);
      }
    }
  }

  lemma TableLighter(g: Geo, s0: State, s1: State, s2: State, i: nat, off: nat, es: seq<Entry>)
    requires Ready(g, s0, multiset{}) && SameMap(s0.m, s1.m) && i < |s0.m.l1|
    requires Ready(g, s1, multiset{} + multiset{off}) && NewCluster(g, s1, off, Table(es), L2)
    requires i < |s1.m.l1| == |s1.diskL1| && s1.m.l1 == s0.m.l1 && CopiedRow(g, s1.m, i, off) && 0 < off
    requires s2 == Retarget(s1, i, off)
    ensures 0 < g.per && Lighter(g, s0, s2, 0)
  {
    hide Kept, Expected, Occ, DataRefs, MetaRefs, CopiedRow, SameMap, EntryOf, Ready;
    ReadySizes(g, s1, multiset{} + multiset{off});
    RetargetKeeps(g, s1, i, off, multiset{});
    AllocLighter(g, s0, s1, off);
    forall c: nat | NeedsCluster(g, s2, c) ensures NeedsCluster(g, s1, c) {
      assert SameCluster(g, s1.m, s2.m, c);
    }
    LighterTwice(g, s0, s1, s2, 0, 0);
  }

  /** A mapped cluster is counted. */
  lemma CountMapped(g: Geo, s: State, n: nat)
    requires Kept(g, s, multiset{}) && 0 < n < |s.refs| && !Unmapped(s.m, n)
    ensures 0 < s.refs[n]
  {
    hide Occ, DataRefs, MetaRefs, MapOk, Tagged, Tracked, Flags;
    assert s.refs[n] == Expected(g, s.m, n) + multiset{}[n];
  }

  lemma CountPositive(g: Geo, s: State, n: nat, pend: multiset<nat>)
    requires Ready(g, s, pend + multiset{n}) && n < |s.refs|
    ensures 0 < s.refs[n] && |s.tags| == |s.refs|
  {
    hide Expected, MapOk, Tagged, Tracked, Flags;
    ReadySizes(g, s, pend + multiset{n});
    assert s.refs[n] == Expected(g, s.m, n) + (pend + multiset{n})[n];
  }

  lemma DropLighter(g: Geo, s0: State, s2: State, s3: State, n: nat, from: nat)
    requires 0 < g.per && Lighter(g, s0, s2, from) && Dropped(g, s2, s3, n) && Ready(g, s3, multiset{}) && 0 < n < |s2.refs|
    ensures Lighter(g, s0, s3, from)
  {
    hide Kept, Occ, DataRefs, EntryOf;
    ReadySizes(g, s3, multiset{});
    forall c: nat | NeedsCluster(g, s3, c) ensures NeedsCluster(g, s2, c) {
      assert SameCluster(g, s2.m, s3.m, c);
      if EntryOf(g, s3.m, c).off == n {
        ClusterMapped(g, s3.m, c);
        CountMapped(g, s3, n);
      }
    }
    forall i: nat | i < |s2.m.l1| && NeedsTable(s3, i) ensures NeedsTable(s2, i) {
      if s3.m.l1[i].off == n {
        RootMapped(g, s3.m, i);
        CountMapped(g, s3, n);
      }
    }
    LighterLess(g, s2, s3, 0, from);
    LighterTwice(g, s0, s2, s3, from, from);
  }

  /** Replacing the entry of cluster `c` changes nothing for later ones. */
  lemma CopyLighter(g: Geo, s0: State, s1: State, s2: State, c: nat, idx: nat, j: nat, off: nat, block: Cluster)
    requires Ready(g, s0, multiset{}) && SameMap(s0.m, s1.m)
    requires Ready(g, s1, multiset{} + multiset{off}) && NewCluster(g, s1, off, block, DATA)
    requires 0 < g.per && c == Times(g.per, idx) + j
    requires SoleTable(g, s1.m, idx, j) && s2 == SetEntry(s1, idx, j, Entry(off, true, false))
    ensures Lighter(g, s0, s2, c + 1)
  {
    hide Kept, Occ, DataRefs, EntryOf, Ready, SameMap, MetaRefs, Expected, Times;
    AllocLighter(g, s0, s1, off);
    ReadySizes(g, s1, multiset{} + multiset{off});
    forall k: nat | c < k && NeedsCluster(g, s2, k) ensures NeedsCluster(g, s1, k) {
      EntryView(g, s1.m, idx, j, Entry(off, true, false), k);
    }
    LighterTwice(g, s0, s1, s2, 0, c + 1);
  }

  lemma RewriteLighter(g: Geo, s: State, n: nat, bytes: seq<Byte>, from: nat)
    requires Ready(g, s, multiset{}) && n < |s.m.hosts| && s.m.hosts[n].Data? && |bytes| == ClusterBytes(g)
    ensures 0 < g.per && Lighter(g, s, PutData(s, n, bytes), from)
  {
    hide Kept, Occ, DataRefs, EntryOf, Ready, MetaRefs, Expected;
    ReadySizes(g, s, multiset{});
    forall c: nat | NeedsCluster(g, PutData(s, n, bytes), c) ensures NeedsCluster(g, s, c) {
      DataView(g, s.m, n, bytes, c);
    }
  }

  /** Making the table private does not add to what the guest cluster needs. */
  lemma NeedEnough(g: Geo, s0: State, s1: State, c: nat, idx: nat)
    requires 0 < g.per && Lighter(g, s0, s1, 0) && idx == Quot(g.per, c)
    ensures One(NeedsTable(s0, idx)) + One(NeedsCluster(g, s1, c)) <= Need(g, s0, c)
  {
    hide NeedsCluster, NeedsTable, Quot;
    assert NeedsCluster(g, s1, c) ==> NeedsCluster(g, s0, c);
  }

  lemma PartLighter(g: Geo, s0: State, s1: State, s2: State, c: nat, idx: nat)
    requires 0 < g.per && Lighter(g, s0, s1, 0) && Lighter(g, s1, s2, c + 1) && idx == Quot(g.per, c) && idx < |s1.m.l1| && !NeedsTable(s1, idx)
    ensures Lighter(g, s0, s2, c + 1) && !NeedsTable(s2, idx)
  {
    hide NeedsCluster, NeedsTable, Quot;
    LighterTwice(g, s0, s1, s2, 0, c + 1);
  }

  // ----- reading -----

  /** The L1 table reaches every guest cluster. */
  ghost predicate Capacity(g: Geo, n: nat) {
    0 < g.per && forall c: nat | Times(ClusterBytes(g), c) < g.size :: Quot(g.per, c) < n
  }

  lemma CapacityAt(g: Geo, n: nat, c: nat)
    requires Capacity(g, n) && Times(ClusterBytes(g), c) < g.size
    ensures Quot(g.per, c) < n
  {
  }

  lemma PerOk(g: Geo, m: Map)
    requires MapOk(g, m)
    ensures 0 < g.per
  {
  }

  lemma RowHere(g: Geo, m: Map, i: nat)
    requires MapOk(g, m) && i < |m.l1| && m.l1[i].off != 0
    ensures m.l1[i].off < |m.hosts| && m.hosts[m.l1[i].off].Table? && |m.hosts[m.l1[i].off].es| == g.per
    ensures Below(m.hosts, m.l1[i]) == m.hosts[m.l1[i].off].es
  {
    assert RootOk(g, m.hosts, m.l1[i]);
  }

  /** What the guest reads from part of one cluster. */
  lemma PartOf(g: Geo, m: Map, c: nat, within: nat, n: nat)
    requires MapOk(g, m) && within + n <= ClusterBytes(g) && Times(ClusterBytes(g), c) + within + n <= g.size
    ensures var e, p := EntryOf(g, m, c), Times(ClusterBytes(g), c) + within;
      var inherited := if p >= |g.parent| then 0 else if |g.parent| - p < n then |g.parent| - p else n;
      && (e.off != 0 ==> e.off < |m.hosts| && m.hosts[e.off].Data? && |m.hosts[e.off].bytes| == ClusterBytes(g))
      && Guest(g, m)[p..p + n] == if e.zero then Zeros(n) else if e.off != 0 then m.hosts[e.off].bytes[within..within + n]
                                  else if inherited == 0 then Zeros(n) else g.parent[p..p + inherited] + Zeros(n - inherited)
  {
    hide EntryOf, Times, Quot, TablesOk, NoAlias, EntryOk;
    var e, p := EntryOf(g, m, c), Times(ClusterBytes(g), c) + within;
    if e.off != 0 { DataNotMeta(g, m, c); }
    forall k: nat | p <= k < p + n
      ensures GuestByte(g, m, k) == if e.zero then 0 else if e.off != 0 then m.hosts[e.off].bytes[within + (k - p)]
                                    else if k < |g.parent| then g.parent[k] else 0
    {
      QuotUnique(ClusterBytes(g), c, within + (k - p));
    }
  }

  // ----- writing -----

  /** The table behind the L1 entry of guest cluster `c` has that entry as its only user. */
  ghost predicate Private(g: Geo, s: State, c: nat, idx: nat, j: nat, t: nat) {
    && 0 < g.per && c == Times(g.per, idx) + j && SoleTable(g, s.m, idx, j) && s.m.l1[idx].off == t && t < |s.m.hosts|
    && s.m.hosts[t].Table? && j < |s.m.hosts[t].es| && s.m.hosts[t].es[j] == EntryOf(g, s.m, c)
    && s.m.hosts[t].es[j].off < |s.refs|
  }

  lemma TableRow(g: Geo, s: State, c: nat, idx: nat, j: nat, t: nat)
    requires Ready(g, s, multiset{}) && idx < |s.m.l1| && s.m.l1[idx].off == t && 0 < t < |s.refs| && s.refs[t] == 1
    requires j < g.per && c == Times(g.per, idx) + j
    ensures Private(g, s, c, idx, j, t)
  {
    hide EntryOf, Occ, DataRefs, MetaRefs, Expected, Times, Kept;
    ReadySizes(g, s, multiset{});
    SolePath(g, s, idx, multiset{});
    RowHere(g, s.m, idx);
    EntryView(g, s.m, idx, j, NONE, c);
    if EntryOf(g, s.m, c).off != 0 { DataNotMeta(g, s.m, c); }
  }

  /** After the allocation the table is still private, and the new cluster fits the entry. */
  lemma EntryReady(g: Geo, s0: State, s1: State, c: nat, idx: nat, j: nat, t: nat, off: nat, block: seq<Byte>)
    requires Ready(g, s0, multiset{}) && Private(g, s0, c, idx, j, t) && SameMap(s0.m, s1.m)
    requires Ready(g, s1, multiset{} + multiset{off}) && NewCluster(g, s1, off, Data(block), DATA) && |block| == ClusterBytes(g)
    ensures SoleTable(g, s1.m, idx, j) && s1.m.l1[idx].off == t && s1.m.hosts[t] == s0.m.hosts[t] && MetaRefs(g, s1.m, t) == 0
    ensures EntryOk(g, s1.m.hosts, Entry(off, true, false)) && 0 < off < |s1.refs|
    ensures EntryOf(g, s1.m, c) == EntryOf(g, s0.m, c) && Guest(g, s1.m) == Guest(g, s0.m) && s1.m.l1 == s0.m.l1
    ensures off < |s1.m.hosts| && s1.m.hosts[off] == Data(block) && off != t
  {
    hide EntryOf, Occ, DataRefs, MetaRefs, Expected, Times, Kept, Guest;
    ReadySizes(g, s0, multiset{});
    ReadySizes(g, s1, multiset{} + multiset{off});
    assert SameRow(s0.m, s1.m, idx);
    TableNotMeta(g, s1.m, idx);
    SameMapEntry(g, s0.m, s1.m, c);
    SameMapView(g, s0.m, s1.m);
  }

  lemma EntryLinked(g: Geo, s0: State, s1: State, s2: State, c: nat, idx: nat, j: nat, t: nat, off: nat, block: seq<Byte>, n: nat)
    requires Ready(g, s1, multiset{} + multiset{off}) && NewCluster(g, s1, off, Data(block), DATA)
    requires SoleTable(g, s1.m, idx, j) && s1.m.l1[idx].off == t && MetaRefs(g, s1.m, t) == 0
    requires EntryOk(g, s1.m.hosts, Entry(off, true, false)) && 0 < off < |s1.refs|
    requires s1.m.hosts[t].es[j].off == n && EntryOf(g, s1.m, c).off == n && s2 == SetEntry(s1, idx, j, Entry(off, true, false))
    ensures n == 0 ==> Ready(g, s2, multiset{})
    ensures n != 0 ==> Ready(g, s2, multiset{} + multiset{n}) && n < |s2.refs| && MetaRefs(g, s2.m, n) == 0
    ensures |s2.m.hosts| == |s1.m.hosts| && |s2.m.l1| == |s1.m.l1|
  {
    hide EntryOf, Occ, DataRefs, MetaRefs, Expected, Times, Kept;
    ReadySizes(g, s1, multiset{} + multiset{off});
    SetEntryKeeps(g, s1, idx, j, off, multiset{});
    if n != 0 {
      DataNotMeta(g, s1.m, c);
      SameMeta(g, s1.m, s2.m, n);
    }
    OldInside(g, s1, s2, n, off);
  }

  /** The guest reads the patched block and nothing else has changed. */
  lemma EntrySpliced(g: Geo, s0: State, s1: State, s2: State, c: nat, idx: nat, j: nat, off: nat, block: seq<Byte>, inherited: nat, within: nat, data: seq<Byte>)
    requires MapOk(g, s1.m) && SoleTable(g, s1.m, idx, j) && c == Times(g.per, idx) + j && Guest(g, s1.m) == Guest(g, s0.m)
    requires EntryOk(g, s1.m.hosts, Entry(off, true, false)) && 0 < off && off < |s1.m.hosts| && s1.m.hosts[off] == Data(block)
    requires off != s1.m.l1[idx].off && s2.m == WithEntry(s1.m, idx, j, Entry(off, true, false))
    requires var base := Times(ClusterBytes(g), c);
      && within + |data| <= ClusterBytes(g) && base + within + |data| <= g.size
      && inherited == (if g.size - base < ClusterBytes(g) then g.size - base else ClusterBytes(g))
      && block == Put(Guest(g, s0.m)[base..base + inherited] + Zeros(ClusterBytes(g) - inherited), within, data)
    ensures 0 < g.per && Guest(g, s2.m) == Put(Guest(g, s1.m), Times(ClusterBytes(g), c) + within, data)
  {
    hide EntryOf, Times, Quot, TablesOk, NoAlias, EntryOk, Put, Zeros;
    forall p: nat | p < g.size
      ensures GuestByte(g, s2.m, p) == Put(Guest(g, s1.m), Times(ClusterBytes(g), c) + within, data)[p]
    {
      SplicedByte(g, s1.m, s2.m, c, idx, j, off, block, inherited, within, data, p);
    }
    assert Guest(g, s2.m) == Put(Guest(g, s1.m), Times(ClusterBytes(g), c) + within, data);
  }

  lemma CopyLinked(g: Geo, s0: State, s1: State, s2: State, c: nat, idx: nat, j: nat, t: nat, off: nat, block: seq<Byte>,
      inherited: nat, within: nat, data: seq<Byte>, n: nat)
    requires Ready(g, s0, multiset{}) && Private(g, s0, c, idx, j, t) && SameMap(s0.m, s1.m)
    requires Ready(g, s1, multiset{} + multiset{off}) && NewCluster(g, s1, off, Data(block), DATA)
    requires n == EntryOf(g, s0.m, c).off
    requires SoleTable(g, s1.m, idx, j) && s2 == SetEntry(s1, idx, j, Entry(off, true, false))
    requires var base := Times(ClusterBytes(g), c);
      && within + |data| <= ClusterBytes(g) && base + within + |data| <= g.size
      && inherited == (if g.size - base < ClusterBytes(g) then g.size - base else ClusterBytes(g))
      && block == Put(Guest(g, s0.m)[base..base + inherited] + Zeros(ClusterBytes(g) - inherited), within, data)
    ensures n == 0 ==> Ready(g, s2, multiset{})
    ensures n != 0 ==> Ready(g, s2, multiset{} + multiset{n}) && n < |s2.refs| && MetaRefs(g, s2.m, n) == 0
    ensures |s2.m.hosts| == |s1.m.hosts| && |s2.m.l1| == |s0.m.l1|
    ensures 0 < g.per && Guest(g, s2.m) == Put(Guest(g, s0.m), Times(ClusterBytes(g), c) + within, data)
  {
    hide EntryOf, Occ, DataRefs, MetaRefs, Expected, Times, Kept, Guest, Put, Zeros, EntryOk, SameMap, NewCluster, Quot;
    ReadySizes(g, s1, multiset{} + multiset{off});
    EntryReady(g, s0, s1, c, idx, j, t, off, block);
    EntryLinked(g, s0, s1, s2, c, idx, j, t, off, block, n);
    EntrySpliced(g, s0, s1, s2, c, idx, j, off, block, inherited, within, data);
  }

  /** A byte of a cluster that inherited `inherited` guest bytes before `data` was put into it. */
  lemma SpliceByte(guest: seq<Byte>, base: nat, inherited: nat, cs: nat, within: nat, data: seq<Byte>, q: nat)
    requires inherited <= cs && base + inherited <= |guest| && within + |data| <= cs && base + within + |data| <= |guest|
    requires q < inherited
    ensures Put(guest[base..base + inherited] + Zeros(cs - inherited), within, data)[q] == Put(guest, base + within, data)[base + q]
  {
  }

  lemma PutOutside(s: seq<Byte>, p: nat, data: seq<Byte>, i: nat)
    requires p + |data| <= |s| && i < |s| && !(p <= i < p + |data|)
    ensures Put(s, p, data)[i] == s[i]
  {
  }

  lemma SplicedByte(g: Geo, m: Map, m': Map, c: nat, idx: nat, j: nat, off: nat, block: seq<Byte>, inherited: nat, within: nat, data: seq<Byte>, p: nat)
    requires 0 < g.per && MapOk(g, m) && SoleTable(g, m, idx, j) && c == Times(g.per, idx) + j && p < g.size
    requires 0 < off < |m.hosts| && m.hosts[off] == Data(block) && off != m.l1[idx].off && m' == WithEntry(m, idx, j, Entry(off, true, false))
    requires var base := Times(ClusterBytes(g), c);
      && within + |data| <= ClusterBytes(g) && base + within + |data| <= g.size
      && inherited == (if g.size - base < ClusterBytes(g) then g.size - base else ClusterBytes(g))
      && block == Put(Guest(g, m)[base..base + inherited] + Zeros(ClusterBytes(g) - inherited), within, data)
    ensures GuestByte(g, m', p) == Put(Guest(g, m), Times(ClusterBytes(g), c) + within, data)[p]
  {
    hide EntryOf, Times, Quot, MapOk, Put, Zeros, Guest, GuestByte;
    var k, base := Quot(ClusterBytes(g), p), Times(ClusterBytes(g), c);
    EntryView(g, m, idx, j, Entry(off, true, false), k);
    GuestAt(g, m, p);
    if k == c {
      EntryByte(g, m', p, Entry(off, true, false), block);
      SpliceByte(Guest(g, m), base, inherited, ClusterBytes(g), within, data, p - base);
    } else {
      OtherCluster(g, m, m', idx, j, off, k);
      SameByte(g, m, m', p);
      ApartClusters(ClusterBytes(g), k, c);
      PutOutside(Guest(g, m), base + within, data, p);
    }
  }

  lemma GuestAt(g: Geo, m: Map, p: nat)
    requires 0 < g.per && p < g.size
    ensures Guest(g, m)[p] == GuestByte(g, m, p)
  {
  }

  lemma EntryByte(g: Geo, m: Map, p: nat, e: Entry, block: seq<Byte>)
    requires 0 < g.per && e == EntryOf(g, m, Quot(ClusterBytes(g), p)) && !e.zero
    requires 0 < e.off < |m.hosts| && m.hosts[e.off] == Data(block) && |block| == ClusterBytes(g)
    ensures GuestByte(g, m, p) == block[p - Times(ClusterBytes(g), Quot(ClusterBytes(g), p))]
  {
    hide EntryOf, Times, Quot;
  }

  lemma SameByte(g: Geo, m: Map, m': Map, p: nat)
    requires 0 < g.per && EntryOf(g, m', Quot(ClusterBytes(g), p)) == EntryOf(g, m, Quot(ClusterBytes(g), p))
    requires var e := EntryOf(g, m, Quot(ClusterBytes(g), p)); e.off != 0 ==> e.off < |m.hosts| <= |m'.hosts| && m'.hosts[e.off] == m.hosts[e.off]
    ensures GuestByte(g, m', p) == GuestByte(g, m, p)
  {
    hide EntryOf, Times, Quot;
  }

  lemma ApartClusters(cs: nat, a: nat, b: nat)
    requires a != b
    ensures Times(cs, a) + cs <= Times(cs, b) || Times(cs, b) + cs <= Times(cs, a)
  {
    if a < b { TimesMonotone(cs, a, b); } else { TimesMonotone(cs, b, a); }
  }

  /** Other guest clusters read the same host clusters. */
  lemma OtherCluster(g: Geo, m: Map, m': Map, idx: nat, j: nat, off: nat, k: nat)
    requires MapOk(g, m) && SoleTable(g, m, idx, j) && m' == WithEntry(m, idx, j, Entry(off, true, false))
    requires k != Times(g.per, idx) + j
    ensures EntryOf(g, m', k) == EntryOf(g, m, k)
    ensures var e := EntryOf(g, m, k); e.off != 0 ==> e.off < |m.hosts| && m'.hosts[e.off] == m.hosts[e.off]
  {
    hide EntryOf, Times, Quot, TablesOk, NoAlias;
    EntryView(g, m, idx, j, Entry(off, true, false), k);
    if EntryOf(g, m, k).off != 0 { DataNotMeta(g, m, k); }
  }

  lemma SameGuestDropped(g: Geo, s: State, s': State, n: nat)
    requires Dropped(g, s, s', n)
    ensures Guest(g, s'.m) == Guest(g, s.m) && |s'.m.hosts| == |s.m.hosts| && |s'.m.l1| == |s.m.l1|
  {
    SameGuest(g, s.m, s'.m);
  }

  lemma Rewritten(g: Geo, s: State, c: nat, within: nat, data: seq<Byte>, n: nat)
    requires Ready(g, s, multiset{}) && n == EntryOf(g, s.m, c).off && n != 0 && !EntryOf(g, s.m, c).zero && n < |s.refs| && s.refs[n] == 1
    requires n < |s.m.hosts| && s.m.hosts[n].Data? && |s.m.hosts[n].bytes| == ClusterBytes(g) && MetaRefs(g, s.m, n) == 0
    requires within + |data| <= ClusterBytes(g) && Times(ClusterBytes(g), c) + within + |data| <= g.size
    ensures var s' := PutData(s, n, Put(s.m.hosts[n].bytes, within, data));
      && Ready(g, s', multiset{}) && 0 < g.per
      && Guest(g, s'.m) == Put(Guest(g, s.m), Times(ClusterBytes(g), c) + within, data)
  {
    hide EntryOf, Times, Quot, TablesOk, NoAlias, MetaRefs, Expected, Kept, Put;
    ReadySizes(g, s, multiset{});
    var bytes := Put(s.m.hosts[n].bytes, within, data);
    var s' := PutData(s, n, bytes);
    PutDataKeeps(g, s, n, bytes, multiset{});
    forall k: nat | k < |s'.refs| && s'.refs[k] != 0 ensures BlockOf(g, s', k) { assert BlockOf(g, s, k); }
    forall p: nat | p < g.size ensures GuestByte(g, s'.m, p) == Put(Guest(g, s.m), Times(ClusterBytes(g), c) + within, data)[p] {
      RewrittenByte(g, s, c, within, data, n, p);
    }
    assert Guest(g, s'.m) == Put(Guest(g, s.m), Times(ClusterBytes(g), c) + within, data);
  }

  lemma RewrittenByte(g: Geo, s: State, c: nat, within: nat, data: seq<Byte>, n: nat, p: nat)
    requires Kept(g, s, multiset{}) && n == EntryOf(g, s.m, c).off && n != 0 && !EntryOf(g, s.m, c).zero && n < |s.refs| && s.refs[n] == 1
    requires n < |s.m.hosts| && s.m.hosts[n].Data? && |s.m.hosts[n].bytes| == ClusterBytes(g) && p < g.size
    requires within + |data| <= ClusterBytes(g) && Times(ClusterBytes(g), c) + within + |data| <= g.size
    ensures 0 < g.per
    ensures GuestByte(g, PutData(s, n, Put(s.m.hosts[n].bytes, within, data)).m, p)
         == Put(Guest(g, s.m), Times(ClusterBytes(g), c) + within, data)[p]
  {
    hide EntryOf, Times, Quot, TablesOk, NoAlias, MetaRefs, Expected, Kept;
    KeptSizes(g, s, multiset{});
    var k := Quot(ClusterBytes(g), p);
    DataView(g, s.m, n, Put(s.m.hosts[n].bytes, within, data), k);
    if k != c {
      ApartClusters(ClusterBytes(g), k, c);
      if EntryOf(g, s.m, k).off == n { SoleReader(g, s, c, k, multiset{}); }
    }
  }

  lemma PutEmpty(s: seq<Byte>, pos: nat)
    requires pos <= |s|
    ensures Put(s, pos, []) == s
  {
  }

  lemma SyncDone(g: Geo, s: State, s': State)
    requires Ready(g, s, multiset{}) && Core(g, s', multiset{}) && OnlyMeta(g, s.m, s'.m) && s'.refs == s.refs && Flushed(s')
    ensures Ready(g, s', multiset{}) && 0 < g.per && Guest(g, s'.m) == Guest(g, s.m) && SameSizes(s.m, s'.m) && s'.m.l1 == s.m.l1
  {
    hide Core, Kept, Guest, SameMap, FlagsBut;
    ReadySizes(g, s, multiset{});
    KeptSizes(g, s, multiset{});
    assert Flags(s.m, s.refs) by { FlagsOf(g, s, multiset{}); }
    FlagsFollow(g, s, s', multiset{});
    OnlyMetaSame(g, s.m, s'.m);
    SameMapView(g, s.m, s'.m);
    forall k: nat | k < |s'.refs| && s'.refs[k] != 0 ensures BlockOf(g, s', k) { assert BlockOf(g, s, k); }
  }

  lemma FlagsOf(g: Geo, s: State, pend: multiset<nat>)
    requires Kept(g, s, pend)
    ensures Flags(s.m, s.refs)
  {
  }
}
