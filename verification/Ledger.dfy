/** Who holds each fragment. A fragment is held by the free map or by a block pointer; operations are
    specified by conserving, fragment by fragment, the number of holders. */
module Ledger {
  import opened Scale

  /** The fragments `[x, x+n)`. */
  function Run(x: nat, n: nat): (m: multiset<nat>)
    ensures |m| == n
    ensures forall y: nat :: m[y] == if x <= y < x + n then 1 else 0
  {
    if n == 0 then multiset{} else Run(x, n - 1) + multiset{x + n - 1}
  }

  /** The run behind a block pointer; pointer zero is a hole. */
  function Held(x: nat, n: nat): multiset<nat> {
    if x == 0 then multiset{} else Run(x, n)
  }

  function Union(ms: seq<multiset<nat>>): multiset<nat> {
    if |ms| == 0 then multiset{} else Union(ms[..|ms| - 1]) + ms[|ms| - 1]
  }

  lemma Swap(a: multiset<nat>, b: multiset<nat>, c: multiset<nat>, d: multiset<nat>, e: multiset<nat>)
    requires a + b == c + d
    ensures a + e + b == c + e + d && e + a + b == e + c + d
  {
    assert a + e + b == a + b + e;
    assert e + a + b == a + b + e;
    assert c + e + d == c + d + e;
    assert e + c + d == c + d + e;
  }

  lemma {:induction false} UnionUpdate(ms: seq<multiset<nat>>, i: nat, m: multiset<nat>)
    requires i < |ms|
    ensures Union(ms[i := m]) + ms[i] == Union(ms) + m
  {
    var k := |ms| - 1;
    if i == k {
      assert ms[i := m][..k] == ms[..k];
    } else {
      UnionUpdate(ms[..k], i, m);
      assert ms[i := m][..k] == ms[..k][i := m];
      Swap(Union(ms[..k][i := m]), ms[i], Union(ms[..k]), m, ms[k]);
    }
  }

  /** Two parts never hold more than the whole. */
  lemma {:induction false} UnionPair(ms: seq<multiset<nat>>, i: nat, j: nat, y: nat)
    requires i < |ms| && j < |ms|
    ensures ms[i][y] <= Union(ms)[y]
    ensures i != j ==> ms[i][y] + ms[j][y] <= Union(ms)[y]
  {
    var k := |ms| - 1;
    if i < k && j < k {
      UnionPair(ms[..k], i, j, y);
    } else if i < k {
      UnionPair(ms[..k], i, i, y);
    } else if j < k {
      UnionPair(ms[..k], j, j, y);
    }
  }

  lemma {:induction false} UnionLess(a: seq<multiset<nat>>, b: seq<multiset<nat>>, y: nat)
    requires |a| == |b| && forall i | 0 <= i < |a| :: a[i][y] <= b[i][y]
    ensures Union(a)[y] <= Union(b)[y]
  {
    if |a| > 0 {
      UnionLess(a[..|a| - 1], b[..|b| - 1], y);
    }
  }

  lemma {:induction false} UnionEmpty(ms: seq<multiset<nat>>)
    requires forall i | 0 <= i < |ms| :: ms[i] == multiset{}
    ensures Union(ms) == multiset{}
  {
    if |ms| > 0 {
      UnionEmpty(ms[..|ms| - 1]);
    }
  }

  ghost function Holders(free: iset<nat>, own: multiset<nat>, y: nat): nat {
    own[y] + if y in free then 1 else 0
  }

  /** No fragment has two owners, and no owned fragment is free. */
  ghost predicate Exclusive(free: iset<nat>, own: multiset<nat>) {
    forall y: nat :: Holders(free, own, y) <= 1
  }

  ghost predicate Conserved(free: iset<nat>, own: multiset<nat>, free': iset<nat>, own': multiset<nat>) {
    forall y: nat :: Holders(free', own', y) == Holders(free, own, y)
  }

  lemma StillExclusive(free: iset<nat>, own: multiset<nat>, free': iset<nat>, own': multiset<nat>)
    requires Exclusive(free, own) && Conserved(free, own, free', own')
    ensures Exclusive(free', own')
  {
    forall y: nat ensures Holders(free', own', y) <= 1 {
      assert Holders(free', own', y) == Holders(free, own, y);
    }
  }

  /** `free'` is `free` with `[x, x+n)` set to `v`. */
  ghost predicate Flipped(free: iset<nat>, free': iset<nat>, x: nat, n: nat, v: bool) {
    forall y: nat :: y in free' <==> if x <= y < x + n then v else y in free
  }

  /** The run was free and is no longer. */
  ghost predicate TakenFrom(free: iset<nat>, free': iset<nat>, x: nat, n: nat) {
    Flipped(free, free', x, n, false) && forall y: nat | x <= y < x + n :: y in free
  }

  lemma TakeConserves(free: iset<nat>, free': iset<nat>, own: multiset<nat>, x: nat, n: nat)
    requires TakenFrom(free, free', x, n)
    ensures Conserved(free, own, free', own + Run(x, n))
  {
  }

  lemma ReleaseConserves(free: iset<nat>, free': iset<nat>, own: multiset<nat>, x: nat, n: nat)
    requires Flipped(free, free', x, n, true) && Exclusive(free, own + Run(x, n))
    ensures Conserved(free, own + Run(x, n), free', own)
  {
    forall y: nat ensures Holders(free', own, y) == Holders(free, own + Run(x, n), y) {
      assert Holders(free, own + Run(x, n), y) <= 1;
    }
  }

  /** What one part gave up, the whole gave up. */
  lemma UnionStep(ms: seq<multiset<nat>>, i: nat, m: multiset<nat>, free: iset<nat>, free': iset<nat>)
    requires i < |ms| && Conserved(free, ms[i], free', m)
    ensures Conserved(free, Union(ms), free', Union(ms[i := m]))
    ensures |Union(ms[i := m])| + |ms[i]| == |Union(ms)| + |m|
  {
    UnionUpdate(ms, i, m);
    forall y: nat ensures Holders(free', Union(ms[i := m]), y) == Holders(free, Union(ms), y) {
      assert Holders(free', m, y) == Holders(free, ms[i], y);
      assert (Union(ms[i := m]) + ms[i])[y] == (Union(ms) + m)[y];
    }
    assert |Union(ms[i := m]) + ms[i]| == |Union(ms) + m|;
  }

  // ----- contents -----

  predicate SameFrag(fs: nat, d: seq<Byte>, d': seq<Byte>, y: nat) {
    |d'| == |d| && forall p | Times(fs, y) <= p < Times(fs, y) + fs && p < |d| :: d'[p] == d[p]
  }

  predicate SameBytes(d: seq<Byte>, d': seq<Byte>, lo: nat, hi: nat) {
    |d'| == |d| && forall p | lo <= p < hi && p < |d| :: d'[p] == d[p]
  }

  lemma RunSame(fs: nat, d: seq<Byte>, d': seq<Byte>, x: nat, n: nat)
    requires 0 < fs && |d'| == |d| && forall y | x <= y < x + n :: SameFrag(fs, d, d', y)
    ensures SameBytes(d, d', Times(fs, x), Times(fs, x) + Times(fs, n))
  {
    TimesAdd(fs, x, n);
    forall p | Times(fs, x) <= p < Times(fs, x + n) && p < |d| ensures d'[p] == d[p] {
      var y := Quot(fs, p);
      QuotBelow(fs, p, x + n);
      if y < x { TimesMonotone(fs, y, x); }
      assert SameFrag(fs, d, d', y);
    }
  }

  /** A write inside a run leaves every other fragment as it was. */
  lemma PutSame(fs: nat, d: seq<Byte>, x: nat, n: nat, p: nat, s: seq<Byte>, y: nat)
    requires p + |s| <= |d| && Times(fs, x) <= p && p + |s| <= Times(fs, x) + Times(fs, n)
    requires y < x || x + n <= y
    ensures SameFrag(fs, d, Put(d, p, s), y)
  {
    TimesAdd(fs, x, n);
    if y < x { TimesMonotone(fs, y, x); } else if x + n < y { TimesMonotone(fs, x + n, y); }
  }

  /** Only the fragments `[x, x+n)` may have changed. */
  ghost predicate SameElsewhere(fs: nat, d: seq<Byte>, d': seq<Byte>, x: nat, n: nat) {
    |d'| == |d| && forall y: nat | y < x || x + n <= y :: SameFrag(fs, d, d', y)
  }

  lemma PutElsewhere(fs: nat, d: seq<Byte>, x: nat, n: nat, p: nat, s: seq<Byte>)
    requires p + |s| <= |d| && Times(fs, x) <= p && p + |s| <= Times(fs, x) + Times(fs, n)
    ensures SameElsewhere(fs, d, Put(d, p, s), x, n)
  {
    forall y: nat | y < x || x + n <= y ensures SameFrag(fs, d, Put(d, p, s), y) {
      PutSame(fs, d, x, n, p, s, y);
    }
  }

  /** Only fragments that were free or in `own` may have changed. */
  ghost predicate Untouched(fs: nat, free: iset<nat>, own: multiset<nat>, d: seq<Byte>, d': seq<Byte>) {
    |d'| == |d| && forall y: nat | Holders(free, own, y) == 0 :: SameFrag(fs, d, d', y)
  }
}
