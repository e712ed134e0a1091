/** Duplicate-claim accounting of the checker: phase 1 claims fragments in a bitmap and keeps a list of
    the extra claims, phase 1b finds the first claimant of every shared fragment, and phase 4 releases
    the claims of cleared inodes. The phases walk the same chunks of every inode. */
module Claims {
  import opened Scale

  const MAX_BAD := 10
  const MAX_DUP := 10

  datatype Result = KeepOn | Skip | Stop
  datatype Chunk = Chunk(blk: int, frags: nat)
  datatype Inode = Inode(ino: nat, chunks: seq<Chunk>)
  datatype Claim = Claim(ino: nat, blk: nat)

  /** Fragments per group, file system size, and per group the first fragment of its superblock copy and
      of its data. */
  datatype Area = Area(fpg: nat, fmax: nat, sblock: seq<nat>, dmin: seq<nat>)

  ghost predicate ValidArea(a: Area) {
    && 0 < a.fpg && |a.sblock| == |a.dmin| && a.fmax <= Times(a.fpg, |a.dmin|)
    && forall c | 0 <= c < |a.dmin| :: GroupOk(a, c)
  }

  ghost predicate GroupOk(a: Area, c: nat)
    requires c < |a.sblock| == |a.dmin|
  {
    Times(a.fpg, c) <= a.sblock[c] <= a.dmin[c] <= Times(a.fpg, c + 1)
  }

  ghost predicate OutRange(a: Area, blk: int, count: nat)
    requires ValidArea(a)
  {
    blk < 0 || count == 0 || blk + count > a.fmax ||
    var c := Quot(a.fpg, blk);
    QuotBelow(a.fpg, blk, |a.dmin|);
    if blk < a.dmin[c] then blk + count > a.sblock[c] else blk + count > Times(a.fpg, c + 1)
  }

  /** `outrange`. */
  method CheckRange(a: Area, blk: int, count: nat) returns (out: bool)
    requires ValidArea(a)
    ensures out == OutRange(a, blk, count)
  {
    if blk < 0 || count == 0 || blk + count > a.fmax {
      return true;
    }
    var c, off := DivMod(a.fpg, blk);
    QuotBelow(a.fpg, blk, |a.dmin|);
    if blk < a.dmin[c] {
      out := blk + count > a.sblock[c];
    } else {
      var next := Mul(a.fpg, c + 1);
      out := blk + count > next;
    }
  }

  /** A chunk in range has every fragment in range, so a phase that tests whole chunks and a phase that
      tests single fragments skip the same ones. */
  lemma {:induction false} FragmentInRange(a: Area, blk: int, count: nat, b: int)
    requires ValidArea(a) && !OutRange(a, blk, count) && blk <= b < blk + count
    ensures !OutRange(a, b, 1)
  {
    var c := Quot(a.fpg, blk);
    QuotBelow(a.fpg, blk, |a.dmin|);
    assert GroupOk(a, c);
    QuotUnique(a.fpg, c, b - Times(a.fpg, c));
  }

  /** The fragments of a chunk that can be claimed. */
  ghost function Frags(a: Area, ino: nat, blk: int, n: nat): seq<Claim>
    requires ValidArea(a)
  {
    if n == 0 then []
    else
      var front := Frags(a, ino, blk, n - 1);
      var b := blk + n - 1;
      if OutRange(a, b, 1) then front else front + [Claim(ino, b)]
  }

  ghost function ChunkClaims(a: Area, ino: nat, chunks: seq<Chunk>): seq<Claim>
    requires ValidArea(a)
  {
    if chunks == [] then [] else
      var n := |chunks| - 1;
      ChunkClaims(a, ino, chunks[..n]) + Frags(a, ino, chunks[n].blk, chunks[n].frags)
  }

  ghost function AllClaims(a: Area, inodes: seq<Inode>): seq<Claim>
    requires ValidArea(a)
  {
    if inodes == [] then [] else
      var n := |inodes| - 1;
      AllClaims(a, inodes[..n]) + ChunkClaims(a, inodes[n].ino, inodes[n].chunks)
  }

  // ----- counting claims -----

  /** How often each fragment is claimed; reserved fragments count once more. */
  ghost function Owed(reserved: set<nat>, cs: seq<Claim>): multiset<nat> {
    if cs == [] then multiset(reserved) else Owed(reserved, cs[..|cs| - 1]) + multiset{cs[|cs| - 1].blk}
  }

  /** The bitmap and the list of extra claims account for every claim. */
  ghost predicate Balanced(n: nat, owed: multiset<nat>, bits: seq<bool>, dups: seq<nat>) {
    && |bits| == n
    && (forall d | d in dups :: d < n)
    && forall b: nat | b < n ::
      && owed[b] == (if bits[b] then 1 else 0) + multiset(dups)[b]
      && (bits[b] <==> owed[b] > 0)
  }

  /** The first part of the list names each duplicated fragment exactly once. */
  ghost predicate FirstsOk(dups: seq<nat>, firsts: nat) {
    && firsts <= |dups| && (firsts == 0 ==> dups == [])
    && (forall i, j | 0 <= i < j < firsts :: dups[i] != dups[j])
    && forall d | d in dups :: d in dups[..firsts]
  }

  lemma {:induction false} ClaimFree(n: nat, owed: multiset<nat>, bits: seq<bool>, dups: seq<nat>, b: nat)
    requires Balanced(n, owed, bits, dups) && b < n && !bits[b]
    ensures Balanced(n, owed + multiset{b}, bits[b := true], dups) && owed[b] == 0
  {
  }

  lemma {:induction false} ClaimAgain(n: nat, owed: multiset<nat>, bits: seq<bool>, dups: seq<nat>, b: nat, more: seq<nat>)
    requires Balanced(n, owed, bits, dups) && b < n && bits[b] && multiset(more) == multiset(dups) + multiset{b}
    ensures Balanced(n, owed + multiset{b}, bits, more) && owed[b] > 0
  {
    forall d | d in more
      ensures d < n
    {
      assert d in multiset(more);
      if d != b {
        assert d in multiset(dups);
        assert d in dups;
      }
    }
  }

  lemma {:induction false} Claimed(n: nat, owed: multiset<nat>, bits: seq<bool>, dups: seq<nat>, b: nat)
    requires Balanced(n, owed, bits, dups) && b < n
    ensures |bits| == n && (bits[b] <==> owed[b] > 0)
  {
  }

  function Inserted(dups: seq<nat>, firsts: nat, b: nat): seq<nat>
    requires firsts <= |dups|
  {
    dups[..firsts] + [b] + dups[firsts..]
  }

  lemma {:induction false} InsertedCounts(dups: seq<nat>, firsts: nat, b: nat)
    requires firsts <= |dups|
    ensures multiset(Inserted(dups, firsts, b)) == multiset(dups) + multiset{b}
  {
    assert dups == dups[..firsts] + dups[firsts..];
  }

  lemma {:induction false} InsertedFirsts(dups: seq<nat>, firsts: nat, b: nat)
    requires FirstsOk(dups, firsts)
    ensures FirstsOk(Inserted(dups, firsts, b), if b in dups[..firsts] then firsts else firsts + 1)
  {
    var more := Inserted(dups, firsts, b);
    assert more[..firsts] == dups[..firsts] && more[..firsts + 1] == dups[..firsts] + [b];
    assert dups == dups[..firsts] + dups[firsts..];
    forall d | d in more
      ensures d == b || d in dups[..firsts]
    {
      if d != b {
        assert d in dups;
      }
    }
  }

  /** Exactly the fragments with two or more claims are named in the list. */
  lemma {:induction false} SharedAreListed(n: nat, owed: multiset<nat>, bits: seq<bool>, dups: seq<nat>, firsts: nat, b: nat)
    requires Balanced(n, owed, bits, dups) && FirstsOk(dups, firsts) && b < n
    ensures b in dups[..firsts] <==> owed[b] >= 2
  {
    assert b in dups <==> b in multiset(dups);
    if b in dups[..firsts] {
      var k :| 0 <= k < firsts && dups[..firsts][k] == b;
      assert dups[k] == b;
    }
  }

  // ----- who is marked -----

  /** Inodes whose claim was not the first on its fragment. */
  ghost function Repeats(reserved: set<nat>, cs: seq<Claim>): set<nat> {
    if cs == [] then {} else
      var front, c := cs[..|cs| - 1], cs[|cs| - 1];
      Repeats(reserved, front) + if Owed(reserved, front)[c.blk] > 0 then {c.ino} else {}
  }

  ghost predicate Touches(cs: seq<Claim>, b: nat) {
    exists k :: 0 <= k < |cs| && cs[k].blk == b
  }

  /** Inodes that hold the first claim on a fragment of `f`. */
  ghost function Firsts(f: set<nat>, cs: seq<Claim>): set<nat> {
    if cs == [] then {} else
      var front, c := cs[..|cs| - 1], cs[|cs| - 1];
      Firsts(f, front) + if c.blk in f && !Touches(front, c.blk) then {c.ino} else {}
  }

  /** Inodes that claim a fragment of `f`. */
  ghost predicate Shares(f: set<nat>, cs: seq<Claim>, ino: nat) {
    exists k :: 0 <= k < |cs| && cs[k].ino == ino && cs[k].blk in f
  }

  lemma {:induction false} OwedGrows(reserved: set<nat>, cs: seq<Claim>, n: nat, b: nat)
    requires n <= |cs|
    ensures Owed(reserved, cs[..n])[b] <= Owed(reserved, cs)[b]
    decreases |cs|
  {
    if n < |cs| {
      assert cs[..|cs| - 1][..n] == cs[..n];
      OwedGrows(reserved, cs[..|cs| - 1], n, b);
    } else {
      assert cs[..n] == cs;
    }
  }

  lemma {:induction false} OwedTouched(reserved: set<nat>, cs: seq<Claim>, b: nat)
    ensures Touches(cs, b) ==> Owed(reserved, cs)[b] > 0
  {
    if cs != [] && Touches(cs, b) {
      var front := cs[..|cs| - 1];
      var k :| 0 <= k < |cs| && cs[k].blk == b;
      if k < |front| {
        assert front[k].blk == b;
        OwedTouched(reserved, front, b);
      }
    }
  }

  ghost predicate SharedSet(reserved: set<nat>, cs: seq<Claim>, f: set<nat>) {
    forall c | c in cs :: c.blk in f <==> Owed(reserved, cs)[c.blk] >= 2
  }

  lemma {:induction false} SharesStep(f: set<nat>, cs: seq<Claim>, n: nat, ino: nat)
    requires n < |cs|
    ensures Shares(f, cs[..n + 1], ino) <==> Shares(f, cs[..n], ino) || (cs[n].ino == ino && cs[n].blk in f)
  {
    var a, b := cs[..n], cs[..n + 1];
    if Shares(f, a, ino) {
      var k :| 0 <= k < |a| && a[k].ino == ino && a[k].blk in f;
      assert b[k] == a[k];
    }
    if Shares(f, b, ino) {
      var k :| 0 <= k < |b| && b[k].ino == ino && b[k].blk in f;
      assert k < n ==> a[k] == b[k];
    }
    assert b[n] == cs[n];
  }

  lemma {:induction false} FirstsStep(f: set<nat>, cs: seq<Claim>, c: Claim)
    ensures Firsts(f, cs + [c]) == Firsts(f, cs) + if c.blk in f && !Touches(cs, c.blk) then {c.ino} else {}
  {
    assert (cs + [c])[..|cs|] == cs;
  }

  lemma {:induction false} RepeatsStep(reserved: set<nat>, cs: seq<Claim>, c: Claim)
    ensures Repeats(reserved, cs + [c]) == Repeats(reserved, cs) + if Owed(reserved, cs)[c.blk] > 0 then {c.ino} else {}
    ensures Owed(reserved, cs + [c]) == Owed(reserved, cs) + multiset{c.blk}
  {
    assert (cs + [c])[..|cs|] == cs;
  }

  /** Later claimants and first claimants together are all claimants of the shared fragments. */
  lemma {:induction false} MarkedPrefix(reserved: set<nat>, cs: seq<Claim>, f: set<nat>, n: nat, ino: nat)
    requires n <= |cs| && SharedSet(reserved, cs, f)
    ensures ino in Repeats(reserved, cs[..n]) || ino in Firsts(f, cs[..n]) <==> Shares(f, cs[..n], ino)
  {
    if n > 0 {
      MarkedPrefix(reserved, cs, f, n - 1, ino);
      MarkedStep(reserved, cs, f, n, ino);
    }
  }

  lemma {:induction false} MarkedStep(reserved: set<nat>, cs: seq<Claim>, f: set<nat>, n: nat, ino: nat)
    requires 0 < n <= |cs| && SharedSet(reserved, cs, f)
    requires ino in Repeats(reserved, cs[..n - 1]) || ino in Firsts(f, cs[..n - 1]) <==> Shares(f, cs[..n - 1], ino)
    ensures ino in Repeats(reserved, cs[..n]) || ino in Firsts(f, cs[..n]) <==> Shares(f, cs[..n], ino)
  {
    hide Owed, Repeats, Firsts, Touches, Shares;
    var front, c := cs[..n - 1], cs[n - 1];
    assert cs[..n] == front + [c] && c in cs;
    SharesStep(f, cs, n - 1, ino);
    OwedGrows(reserved, cs, n, c.blk);
    OwedTouched(reserved, front, c.blk);
    RepeatsStep(reserved, front, c);
    FirstsStep(f, front, c);
  }

  // ----- when phase 1 gives up on an inode -----

  /** How many of the claims `cs`, made after the claims `before`, are on fragments that are claimed already. */
  ghost function RepeatCount(reserved: set<nat>, before: seq<Claim>, cs: seq<Claim>): nat {
    if cs == [] then 0 else
      var front, c := cs[..|cs| - 1], cs[|cs| - 1];
      RepeatCount(reserved, before, front) + if Owed(reserved, before + front)[c.blk] > 0 then 1 else 0
  }

  ghost function BadCount(a: Area, chunks: seq<Chunk>): nat
    requires ValidArea(a)
  {
    if chunks == [] then 0 else
      var n := |chunks| - 1;
      BadCount(a, chunks[..n]) + if OutRange(a, chunks[n].blk, chunks[n].frags) then 1 else 0
  }

  /** The inode has ten chunks out of range, or ten of its claims are on claimed fragments. */
  ghost predicate GivenUp(a: Area, reserved: set<nat>, before: seq<Claim>, inode: Inode)
    requires ValidArea(a)
  {
    BadCount(a, inode.chunks) >= 10 || RepeatCount(reserved, before, ChunkClaims(a, inode.ino, inode.chunks)) >= 10
  }

  /** The claims before those of inode `k` are all claims of the inodes before it. */
  ghost predicate GivenUpAt(a: Area, reserved: set<nat>, inodes: seq<Inode>, k: nat)
    requires ValidArea(a) && k < |inodes|
  {
    GivenUp(a, reserved, AllClaims(a, inodes[..k]), inodes[k])
  }

  /** Phase 1 gives up on none of the first `n` inodes. */
  ghost predicate NoneGivenUp(a: Area, reserved: set<nat>, inodes: seq<Inode>, n: nat)
    requires ValidArea(a) && n <= |inodes|
  {
    forall k | 0 <= k < n :: !GivenUpAt(a, reserved, inodes, k)
  }

  lemma {:induction false} NothingYet(a: Area, reserved: set<nat>, inodes: seq<Inode>)
    requires ValidArea(a)
    ensures NoneGivenUp(a, reserved, inodes, 0) && AllClaims(a, []) == [] && AllBad(a, []) == {}
  {
  }

  lemma {:induction false} NoneNext(a: Area, reserved: set<nat>, inodes: seq<Inode>, n: nat)
    requires ValidArea(a) && n < |inodes|
    ensures NoneGivenUp(a, reserved, inodes, n + 1) <==> NoneGivenUp(a, reserved, inodes, n) && !GivenUpAt(a, reserved, inodes, n)
  {
  }

  lemma {:induction false} RepeatNext(reserved: set<nat>, before: seq<Claim>, cs: seq<Claim>, c: Claim)
    ensures RepeatCount(reserved, before, cs + [c])
         == RepeatCount(reserved, before, cs) + if Owed(reserved, before + cs)[c.blk] > 0 then 1 else 0
  {
    assert (cs + [c])[..|cs|] == cs;
  }

  lemma {:induction false} RepeatMore(reserved: set<nat>, before: seq<Claim>, cs: seq<Claim>, more: seq<Claim>)
    ensures RepeatCount(reserved, before, cs) <= RepeatCount(reserved, before, cs + more)
  {
    if more == [] {
      assert cs + more == cs;
    } else {
      var n := |more| - 1;
      RepeatMore(reserved, before, cs, more[..n]);
      assert cs + more == (cs + more[..n]) + [more[n]];
      RepeatNext(reserved, before, cs + more[..n], more[n]);
    }
  }

  lemma {:induction false} FragsMore(a: Area, ino: nat, blk: int, n: nat, m: nat) returns (rest: seq<Claim>)
    requires ValidArea(a) && n <= m
    ensures Frags(a, ino, blk, m) == Frags(a, ino, blk, n) + rest
    decreases m
  {
    rest := [];
    if n < m {
      rest := FragsMore(a, ino, blk, n, m - 1);
      if !OutRange(a, blk + m - 1, 1) {
        rest := rest + [Claim(ino, blk + m - 1)];
      }
    }
  }

  lemma {:induction false} ChunksMore(a: Area, ino: nat, chunks: seq<Chunk>, n: nat) returns (rest: seq<Claim>)
    requires ValidArea(a) && n <= |chunks|
    ensures ChunkClaims(a, ino, chunks) == ChunkClaims(a, ino, chunks[..n]) + rest
    ensures BadCount(a, chunks[..n]) <= BadCount(a, chunks)
    decreases |chunks|
  {
    if n == |chunks| {
      rest := [];
      assert chunks[..n] == chunks;
    } else {
      var k := |chunks| - 1;
      rest := ChunksMore(a, ino, chunks[..k], n);
      assert chunks[..k][..n] == chunks[..n];
      rest := rest + Frags(a, ino, chunks[k].blk, chunks[k].frags);
    }
  }

  lemma {:induction false} NoFrags(a: Area, ino: nat, blk: int, mine: seq<Claim>)
    requires ValidArea(a)
    ensures mine + Frags(a, ino, blk, 0) == mine
  {
  }

  lemma {:induction false} SkippedFrag(a: Area, ino: nat, blk: int, n: nat)
    requires ValidArea(a) && OutRange(a, blk + n, 1)
    ensures Frags(a, ino, blk, n + 1) == Frags(a, ino, blk, n)
  {
  }

  /** One more fragment in range. */
  lemma {:induction false} FragNext(a: Area, reserved: set<nat>, before: seq<Claim>, mine: seq<Claim>, ino: nat, blk: int, n: nat)
    requires ValidArea(a) && blk + n >= 0 && !OutRange(a, blk + n, 1)
    ensures var cs := mine + Frags(a, ino, blk, n);
      RepeatCount(reserved, before, mine + Frags(a, ino, blk, n + 1))
      == RepeatCount(reserved, before, cs) + if Owed(reserved, before + mine + Frags(a, ino, blk, n))[blk + n] > 0 then 1 else 0
  {
    hide OutRange, Owed, RepeatCount;
    var cs, c := mine + Frags(a, ino, blk, n), Claim(ino, blk + n);
    assert mine + Frags(a, ino, blk, n + 1) == cs + [c];
    assert before + mine + Frags(a, ino, blk, n) == before + cs;
    RepeatNext(reserved, before, cs, c);
  }

  lemma {:induction false} RepeatsStay(a: Area, reserved: set<nat>, before: seq<Claim>, mine: seq<Claim>, ino: nat, blk: int, n: nat, m: nat)
    requires ValidArea(a) && n <= m
    ensures RepeatCount(reserved, before, mine + Frags(a, ino, blk, n)) <= RepeatCount(reserved, before, mine + Frags(a, ino, blk, m))
  {
    hide RepeatCount, Frags;
    var rest := FragsMore(a, ino, blk, n, m);
    assert mine + Frags(a, ino, blk, m) == (mine + Frags(a, ino, blk, n)) + rest;
    RepeatMore(reserved, before, mine + Frags(a, ino, blk, n), rest);
  }

  lemma {:induction false} CountsStep(a: Area, ino: nat, chunks: seq<Chunk>, k: nat)
    requires ValidArea(a) && k < |chunks|
    ensures BadCount(a, chunks[..k + 1]) == BadCount(a, chunks[..k]) + if OutRange(a, chunks[k].blk, chunks[k].frags) then 1 else 0
    ensures ChunkClaims(a, ino, chunks[..k + 1]) == ChunkClaims(a, ino, chunks[..k]) + Frags(a, ino, chunks[k].blk, chunks[k].frags)
  {
    assert chunks[..k + 1][..k] == chunks[..k];
  }

  lemma {:induction false} CountsStay(a: Area, reserved: set<nat>, before: seq<Claim>, ino: nat, chunks: seq<Chunk>, n: nat)
    requires ValidArea(a) && n <= |chunks|
    ensures BadCount(a, chunks[..n]) <= BadCount(a, chunks)
    ensures RepeatCount(reserved, before, ChunkClaims(a, ino, chunks[..n])) <= RepeatCount(reserved, before, ChunkClaims(a, ino, chunks))
  {
    hide RepeatCount, ChunkClaims;
    var rest := ChunksMore(a, ino, chunks, n);
    RepeatMore(reserved, before, ChunkClaims(a, ino, chunks[..n]), rest);
  }

  // ----- phase 1b's search -----

  /** The list while phase 1b runs: the fragments of `f` found so far stand before `head`. */
  ghost predicate Searching(f: set<nat>, cs: seq<Claim>, dups: seq<nat>, firsts: nat, head: nat) {
    && head <= firsts <= |dups|
    && (forall i, j | 0 <= i < j < firsts :: dups[i] != dups[j])
    && (forall i | 0 <= i < firsts :: dups[i] in f)
    && (forall b | b in f :: b in dups[..firsts])
    && (forall i | 0 <= i < head :: Touches(cs, dups[i]))
    && (forall i | head <= i < firsts :: !Touches(cs, dups[i]))
  }

  lemma {:induction false} TouchesStep(cs: seq<Claim>, c: Claim, b: nat)
    ensures Touches(cs + [c], b) <==> Touches(cs, b) || c.blk == b
  {
    var more := cs + [c];
    if Touches(cs, b) {
      var k :| 0 <= k < |cs| && cs[k].blk == b;
      assert more[k].blk == b;
    }
    if Touches(more, b) {
      var k :| 0 <= k < |more| && more[k].blk == b;
      assert k < |cs| ==> cs[k].blk == b;
    }
    assert more[|cs|] == c;
  }

  /** A claim that is not in the unfound part of the list finds nothing. */
  lemma {:induction false} NotFound(f: set<nat>, cs: seq<Claim>, dups: seq<nat>, firsts: nat, head: nat, c: Claim)
    requires Searching(f, cs, dups, firsts, head) && forall i | head <= i < firsts :: dups[i] != c.blk
    ensures Searching(f, cs + [c], dups, firsts, head) && Firsts(f, cs + [c]) == Firsts(f, cs)
  {
    FirstsStep(f, cs, c);
    forall i | 0 <= i < firsts
      ensures Touches(cs + [c], dups[i]) <==> i < head
    {
      TouchesStep(cs, c, dups[i]);
    }
    if c.blk in f {
      var k :| 0 <= k < firsts && dups[..firsts][k] == c.blk;
      assert dups[k] == c.blk && k < head;
    }
  }

  /** The found fragment changes places with the first unfound one. */
  lemma {:induction false} Found(f: set<nat>, cs: seq<Claim>, dups: seq<nat>, firsts: nat, head: nat, c: Claim, i: nat)
    requires Searching(f, cs, dups, firsts, head) && head <= i < firsts && dups[i] == c.blk
    ensures Searching(f, cs + [c], dups[i := dups[head]][head := c.blk], firsts, head + 1)
    ensures Firsts(f, cs + [c]) == Firsts(f, cs) + {c.ino}
    ensures multiset(dups[i := dups[head]][head := c.blk]) == multiset(dups)
    ensures var more := dups[i := dups[head]][head := c.blk];
      forall j | head + 1 <= j < firsts :: more[j] != c.blk
    ensures c.blk in f
  {
    FirstsStep(f, cs, c);
    var more := dups[i := dups[head]][head := c.blk];
    forall k | 0 <= k < firsts
      ensures more[k] in f && (Touches(cs + [c], more[k]) <==> k < head + 1)
    {
      TouchesStep(cs, c, more[k]);
    }
    forall b | b in f
      ensures b in more[..firsts]
    {
      var k :| 0 <= k < firsts && dups[..firsts][k] == b;
      var at := if k == i then head else if k == head then i else k;
      assert more[..firsts][at] == b;
    }
  }

  /** Once every fragment of `f` is found, no later claim finds another. */
  lemma {:induction false} AllFound(f: set<nat>, cs: seq<Claim>, rest: seq<Claim>)
    requires forall b | b in f :: Touches(cs, b)
    ensures Firsts(f, cs + rest) == Firsts(f, cs)
  {
    if rest == [] {
      assert cs + rest == cs;
    } else {
      var n := |rest| - 1;
      AllFound(f, cs, rest[..n]);
      assert cs + rest == (cs + rest[..n]) + [rest[n]];
      FirstsStep(f, cs + rest[..n], rest[n]);
      var b := rest[n].blk;
      if b in f {
        var k :| 0 <= k < |cs| && cs[k].blk == b;
        assert (cs + rest[..n])[k].blk == b;
      }
    }
  }

  // ----- phase 4's release -----

  lemma {:induction false} ReleaseListed(n: nat, owed: multiset<nat>, bits: seq<bool>, dups: seq<nat>, b: nat, i: nat)
    requires Balanced(n, owed, bits, dups) && b < n && i < |dups| && dups[i] == b
    ensures bits[b] && Balanced(n, owed - multiset{b}, bits, dups[i := dups[0]][1..])
  {
    var less := dups[i := dups[0]][1..];
    DroppedCounts(dups, i);
    assert b in multiset(dups);
    forall d | d in less
      ensures d < n
    {
      assert d in multiset(less);
      assert d in multiset(dups);
      assert d in dups;
    }
  }

  /** The head takes the place of the dropped entry. */
  lemma {:induction false} DroppedCounts(dups: seq<nat>, i: nat)
    requires i < |dups|
    ensures multiset(dups[i := dups[0]][1..]) == multiset(dups) - multiset{dups[i]}
  {
    var moved := dups[i := dups[0]];
    SplitCounts(moved, 0);
    SplitCounts(moved, i);
    SplitCounts(dups, i);
    assert moved[..0] == [] && moved[..i] == dups[..i] && moved[i + 1..] == dups[i + 1..];
  }

  lemma {:induction false} SplitCounts(s: seq<nat>, i: nat)
    requires i < |s|
    ensures multiset(s) == multiset(s[..i]) + multiset{s[i]} + multiset(s[i + 1..])
  {
    assert s == s[..i] + [s[i]] + s[i + 1..];
  }

  lemma {:induction false} ReleaseLast(n: nat, owed: multiset<nat>, bits: seq<bool>, dups: seq<nat>, b: nat)
    requires Balanced(n, owed, bits, dups) && b < n && b !in dups
    ensures Balanced(n, owed - multiset{b}, bits[b := false], dups) && (bits[b] <==> owed[b] == 1)
  {
    assert b !in multiset(dups);
  }

  // ----- the phases -----

  class Fsck {
    const a: Area
    ghost const reserved: set<nat>
    var bits: seq<bool>      // the block map
    var dups: seq<nat>       // the list of extra claims
    var firsts: nat          // the entries of its first part
    var head: nat            // phase 1b: the entries already found
    var marked: set<nat>     // inodes to be cleared
    var badBlk: nat
    var dupBlk: nat
    ghost var claims: seq<Claim>
    ghost var seen: seq<Claim>     // phase 1b: the claims walked so far
    ghost var released: seq<Claim>  // phase 4: the claims given back
    ghost var bad: set<nat>  // inodes with a chunk out of range, or given up on

    /** Reserved fragments are in the map from the start. */
    constructor (a: Area, reserved: set<nat>)
      requires ValidArea(a)
      ensures this.a == a && this.reserved == reserved && Phase1() && claims == [] && bad == {}
      ensures seen == [] && released == [] && head == 0
    {
      this.a, this.reserved := a, reserved;
      bits := seq(a.fmax, b requires 0 <= b < a.fmax => b in reserved);
      dups, firsts, head, marked, badBlk, dupBlk, claims, bad := [], 0, 0, {}, 0, 0, [], {};
      seen, released := [], [];
    }

    ghost predicate Phase1()
      reads this
    {
      && ValidArea(a) && FirstsOk(dups, firsts)
      && Balanced(a.fmax, Owed(reserved, claims), bits, dups)
      && marked == Repeats(reserved, claims) + bad
    }

    /** One fragment of `pass1check`, in range. */
    method ClaimFragment(ino: nat, b: nat) returns (stop: bool)
      requires Phase1() && b < a.fmax && dupBlk < MAX_DUP
      modifies this`bits, this`dups, this`firsts, this`marked, this`dupBlk, this`claims, this`bad
      ensures Phase1() && badBlk == old(badBlk)
      ensures dupBlk == old(dupBlk) + (if Owed(reserved, old(claims))[b] > 0 then 1 else 0)
      ensures stop <==> dupBlk >= MAX_DUP
      ensures if stop then claims == old(claims) && bad == old(bad) + {ino} else
        claims == old(claims) + [Claim(ino, b)] && dupBlk < MAX_DUP && bad == old(bad)
    {
      hide Balanced, Owed, Repeats, FirstsOk, Inserted;
      BitsSize(a.fmax, Owed(reserved, claims), bits, dups, firsts);
      ghost var c := Claim(ino, b);
      RepeatsStep(reserved, claims, c);
      Claimed(a.fmax, Owed(reserved, claims), bits, dups, b);
      if !bits[b] {
        ClaimFree(a.fmax, Owed(reserved, claims), bits, dups, b);
        bits := bits[b := true];
        claims := claims + [c];
        return false;
      }
      marked := marked + {ino};
      dupBlk := dupBlk + 1;
      if dupBlk >= MAX_DUP {
        bad := bad + {ino};
        return true;
      }
      var listed := InFirsts(b);
      InsertedCounts(dups, firsts, b);
      ClaimAgain(a.fmax, Owed(reserved, claims), bits, dups, b, Inserted(dups, firsts, b));
      InsertedFirsts(dups, firsts, b);
      var more := Insert(b);
      dups, firsts := more, if listed then firsts else firsts + 1;
      claims := claims + [c];
      stop := false;
    }

    method Insert(b: nat) returns (more: seq<nat>)
      requires firsts <= |dups|
      ensures more == Inserted(dups, firsts, b)
    {
      more := dups[..firsts] + [b] + dups[firsts..];
    }

    /** The search of the first part of the list. */
    method InFirsts(b: nat) returns (listed: bool)
      requires firsts <= |dups|
      ensures listed <==> b in dups[..firsts]
    {
      var i := 0;
      while i < firsts && dups[i] != b
        invariant i <= firsts && b !in dups[..i]
      {
        i := i + 1;
      }
      listed := i < firsts;
      if listed {
        assert dups[..firsts][i] == b;
      } else {
        assert dups[..i] == dups[..firsts];
      }
    }

    /** `pass1check`. */
    method Pass1Check(ino: nat, chunk: Chunk, ghost before: seq<Claim>, ghost mine: seq<Claim>) returns (r: Result)
      requires Phase1() && badBlk < MAX_BAD && dupBlk < MAX_DUP
      requires claims == before + mine && dupBlk == RepeatCount(reserved, before, mine)
      modifies this`bits, this`dups, this`firsts, this`marked, this`badBlk, this`dupBlk, this`claims, this`bad
      ensures Phase1()
      ensures badBlk == old(badBlk) + (if OutRange(a, chunk.blk, chunk.frags) then 1 else 0)
      ensures r.Stop? <==> badBlk >= MAX_BAD || RepeatCount(reserved, before, mine + Frags(a, ino, chunk.blk, chunk.frags)) >= MAX_DUP
      ensures !r.Stop? ==> dupBlk == RepeatCount(reserved, before, mine + Frags(a, ino, chunk.blk, chunk.frags))
      ensures !r.Stop? ==> claims == old(claims) + Frags(a, ino, chunk.blk, chunk.frags)
      ensures !r.Stop? ==> badBlk < MAX_BAD && dupBlk < MAX_DUP
      ensures !r.Stop? ==> (r.Skip? <==> Skips(a, chunk))
      ensures !r.Stop? ==> bad == old(bad) + if OutRange(a, chunk.blk, chunk.frags) then {ino} else {}
    {
      hide Balanced, Owed, Repeats, FirstsOk, OutRange, ValidArea, RepeatCount;
      r := KeepOn;
      var anyOut := CheckRange(a, chunk.blk, chunk.frags);
      if anyOut {
        marked, bad := marked + {ino}, bad + {ino};
        badBlk := badBlk + 1;
        if badBlk >= MAX_BAD {
          return Stop;
        }
      }
      var n: nat := 0;
      assert mine + Frags(a, ino, chunk.blk, 0) == mine by { NoFrags(a, ino, chunk.blk, mine); }
      while n < chunk.frags
        invariant n <= chunk.frags && Phase1() && badBlk < MAX_BAD && dupBlk < MAX_DUP
        invariant badBlk == old(badBlk) + (if anyOut then 1 else 0)
        invariant dupBlk == RepeatCount(reserved, before, mine + Frags(a, ino, chunk.blk, n))
        invariant bad == old(bad) + if anyOut then {ino} else {}
        invariant claims == old(claims) + Frags(a, ino, chunk.blk, n)
        invariant r == if SkipsUpTo(a, chunk.blk, n) then Skip else KeepOn
      {
        var b := chunk.blk + n;
        var out := anyOut;
        if anyOut {
          out := CheckRange(a, b, 1);
        } else {
          FragmentInRange(a, chunk.blk, chunk.frags, b);
        }
        if out {
          SkippedFrag(a, ino, chunk.blk, n);
          r := Skip;
        } else {
          InRangeBounds(a, b);
          FragNext(a, reserved, before, mine, ino, chunk.blk, n);
          var stop := ClaimFragment(ino, b);
          if stop {
            RepeatsStay(a, reserved, before, mine, ino, chunk.blk, n + 1, chunk.frags);
            return Stop;
          }
        }
        SkipStep(a, chunk.blk, n);
        n := n + 1;
      }
    }

    /** Phase 1 on the chunks of one inode. */
    method Pass1Inode(inode: Inode) returns (stopped: bool)
      requires Phase1()
      modifies this`bits, this`dups, this`firsts, this`marked, this`badBlk, this`dupBlk, this`claims, this`bad
      ensures Phase1()
      ensures stopped <==> GivenUp(a, reserved, old(claims), inode)
      ensures !stopped ==> claims == old(claims) + ChunkClaims(a, inode.ino, inode.chunks)
      ensures !stopped ==> bad == old(bad) + BadChunks(a, inode.ino, inode.chunks)
    {
      badBlk, dupBlk := 0, 0;
      ghost var c0, b0, ino := claims, bad, inode.ino;
      var chunks := inode.chunks;
      ChunkStart(a, ino, chunks);
      hide Frags, OutRange, Balanced, Owed, FirstsOk, Repeats, Skips, ValidArea, ChunkClaims, BadChunks, RepeatCount;
      for k := 0 to |chunks|
        invariant Phase1() && badBlk < MAX_BAD && dupBlk < MAX_DUP
        invariant badBlk == BadCount(a, chunks[..k]) && dupBlk == RepeatCount(reserved, c0, ChunkClaims(a, ino, chunks[..k]))
        invariant claims == c0 + ChunkClaims(a, ino, chunks[..k]) && bad == b0 + BadChunks(a, ino, chunks[..k])
      {
        CountsStep(a, ino, chunks, k);
        var r := Pass1Check(inode.ino, chunks[k], c0, ChunkClaims(a, ino, chunks[..k]));
        if r.Stop? {
          CountsStay(a, reserved, c0, ino, chunks, k + 1);
          return true;
        }
        ChunkStep(a, ino, chunks, k, c0, b0);
      }
      assert chunks[..|chunks|] == chunks;
      stopped := false;
    }

    /** Phase 1 on all inodes; it is complete when no inode was given up on. */
    method Pass1(inodes: seq<Inode>) returns (complete: bool)
      requires Phase1() && claims == [] && bad == {}
      modifies this`bits, this`dups, this`firsts, this`marked, this`badBlk, this`dupBlk, this`claims, this`bad
      ensures Phase1() && (complete ==> claims == AllClaims(a, inodes) && bad == AllBad(a, inodes))
      ensures complete <==> NoneGivenUp(a, reserved, inodes, |inodes|)
    {
      hide GivenUp, NoneGivenUp, AllClaims, AllBad, Balanced, FirstsOk, Owed, Repeats, ValidArea;
      NothingYet(a, reserved, inodes);
      complete := true;
      assert inodes[..0] == [];
      for k := 0 to |inodes|
        invariant Phase1() && (complete ==> claims == AllClaims(a, inodes[..k]) && bad == AllBad(a, inodes[..k]))
        invariant complete <==> NoneGivenUp(a, reserved, inodes, k)
      {
        NoneNext(a, reserved, inodes, k);
        var stopped := Pass1Inode(inodes[k]);
        complete := complete && !stopped;
        AllNext(a, inodes, k);
      }
      assert inodes[..|inodes|] == inodes;
    }

    // ----- phase 1b -----

    /** The fragments of `f` are being found; `before` are the inodes that phase 1 marked. */
    ghost predicate Phase1b(f: set<nat>, before: set<nat>)
      reads this
    {
      && ValidArea(a) && (forall b | b in f :: !OutRange(a, b, 1))
      && Searching(f, seen, dups, firsts, head) && marked == before + Firsts(f, seen)
    }

    /** The search for one fragment in `pass1bcheck`. */
    method Search(ino: nat, b: int, ghost f: set<nat>, ghost before: set<nat>)
      requires Phase1b(f, before)
      modifies this`dups, this`head, this`marked, this`seen
      ensures Phase1b(f, before) && multiset(dups) == old(multiset(dups))
      ensures seen == old(seen) + if OutRange(a, b, 1) then [] else [Claim(ino, b)]
    {
      hide Firsts, Searching, OutRange, ValidArea;
      ghost var found, s0, c := false, seen, Claim(ino, if b < 0 then 0 else b);
      SearchBounds(f, seen, dups, firsts, head);
      var i := head;
      while i < firsts
        invariant head <= i <= firsts <= |dups| && multiset(dups) == old(multiset(dups)) && Phase1b(f, before)
        invariant if found then !OutRange(a, b, 1) && seen == s0 + [c] && c.blk == b else seen == s0
        invariant forall j | head <= j < (if found then firsts else i) :: dups[j] != b
      {
        if dups[i] == b {
          Found(f, seen, dups, firsts, head, c, i);
          marked, dups := marked + {ino}, dups[i := dups[head]][head := b];
          head, seen, found := head + 1, seen + [c], true;
        }
        i := i + 1;
      }
      if !found && !OutRange(a, b, 1) {
        InRangeBounds(a, b);
        NotFound(f, seen, dups, firsts, head, c);
        seen := seen + [c];
      }
    }

    /** `pass1bcheck`. */
    method Pass1bCheck(ino: nat, chunk: Chunk, ghost f: set<nat>, ghost before: set<nat>) returns (r: Result)
      requires Phase1b(f, before)
      modifies this`dups, this`head, this`marked, this`seen
      ensures Phase1b(f, before) && multiset(dups) == old(multiset(dups))
      ensures seen == old(seen) + Frags(a, ino, chunk.blk, chunk.frags)
      ensures r.Stop? ==> head == firsts
      ensures !r.Stop? ==> (r.Skip? <==> Skips(a, chunk))
    {
      hide Firsts, Searching, OutRange, ValidArea;
      r := KeepOn;
      ghost var s0 := seen;
      var n: nat := 0;
      while n < chunk.frags
        invariant n <= chunk.frags && Phase1b(f, before) && multiset(dups) == old(multiset(dups))
        invariant seen == s0 + Frags(a, ino, chunk.blk, n)
        invariant r == if SkipsUpTo(a, chunk.blk, n) then Skip else KeepOn
      {
        var out := CheckRange(a, chunk.blk + n, 1);
        if out {
          r := Skip;
        }
        Search(ino, chunk.blk + n, f, before);
        SkipStep(a, chunk.blk, n);
        n := n + 1;
        if head == firsts {
          FragsPrefix(a, ino, chunk.blk, n, chunk.frags);
          SearchOver(f, seen, dups, firsts, s0 + Frags(a, ino, chunk.blk, chunk.frags));
          seen := s0 + Frags(a, ino, chunk.blk, chunk.frags);
          return Stop;
        }
      }
    }

    /** Phase 1b stops as soon as every fragment has been found. */
    method Pass1b(inodes: seq<Inode>, ghost f: set<nat>)
      requires Phase1b(f, marked) && seen == []
      modifies this`dups, this`head, this`marked, this`seen
      ensures Phase1b(f, old(marked)) && multiset(dups) == old(multiset(dups)) && seen == AllClaims(a, inodes)
    {
      hide Firsts, Searching, OutRange, ValidArea, ChunkClaims, Frags;
      ghost var before := marked;
      assert inodes[..0] == [];
      for k := 0 to |inodes|
        invariant Phase1b(f, before) && multiset(dups) == old(multiset(dups)) && seen == AllClaims(a, inodes[..k])
      {
        assert inodes[..k + 1][..k] == inodes[..k];
        var stop := Pass1bInode(inodes[k], f, before);
        if stop {
          AllPrefix(a, inodes, k + 1);
          SearchOver(f, seen, dups, firsts, AllClaims(a, inodes));
          seen := AllClaims(a, inodes);
          return;
        }
      }
      assert inodes[..|inodes|] == inodes;
    }

    method Pass1bInode(inode: Inode, ghost f: set<nat>, ghost before: set<nat>) returns (stop: bool)
      requires Phase1b(f, before)
      modifies this`dups, this`head, this`marked, this`seen
      ensures Phase1b(f, before) && multiset(dups) == old(multiset(dups))
      ensures seen == old(seen) + ChunkClaims(a, inode.ino, inode.chunks)
      ensures stop ==> head == firsts
    {
      var chunks := inode.chunks;
      ghost var ino, s0 := inode.ino, seen;
      ChunkStart(a, ino, chunks);
      hide Firsts, Searching, OutRange, ValidArea, ChunkClaims, Frags, Skips;
      for k := 0 to |chunks|
        invariant Phase1b(f, before) && multiset(dups) == old(multiset(dups))
        invariant seen == s0 + ChunkClaims(a, ino, chunks[..k])
      {
        var r := Pass1bCheck(inode.ino, chunks[k], f, before);
        ChunkStep(a, ino, chunks, k, s0, {});
        if r.Stop? {
          ChunkPrefix(a, ino, chunks, k + 1);
          SearchOver(f, seen, dups, firsts, s0 + ChunkClaims(a, ino, chunks));
          seen := s0 + ChunkClaims(a, ino, chunks);
          return true;
        }
      }
      assert chunks[..|chunks|] == chunks;
      stop := false;
    }

    // ----- phase 4 -----

    ghost predicate Phase4()
      reads this
    {
      ValidArea(a) && Balanced(a.fmax, Owed(reserved, claims) - Owed({}, released), bits, dups)
    }

    /** One fragment of `pass4check`, in range. */
    method ReleaseFragment(ghost ino: nat, b: nat)
      requires Phase4() && b < a.fmax
      modifies this`bits, this`dups, this`released
      ensures Phase4() && released == old(released) + [Claim(ino, b)]
      ensures bits[b] <==> (Owed(reserved, claims) - Owed({}, released))[b] > 0
    {
      hide Balanced, ValidArea, Owed;
      ghost var all, gone := Owed(reserved, claims), Owed({}, released);
      BalancedMeans(a.fmax, all - gone, bits, dups, b);
      OwedPush({}, released, Claim(ino, b));
      MinusTwice(all, gone, multiset{b});
      if bits[b] {
        var i := 0;
        while i < |dups| && dups[i] != b
          invariant i <= |dups| && b !in dups[..i]
        {
          i := i + 1;
        }
        if i < |dups| {
          ReleaseListed(a.fmax, all - gone, bits, dups, b, i);
          dups := dups[i := dups[0]][1..];
        } else {
          assert dups[..i] == dups;
          ReleaseLast(a.fmax, all - gone, bits, dups, b);
          bits := bits[b := false];
        }
      }
      released := released + [Claim(ino, b)];
      BalancedMeans(a.fmax, Owed(reserved, claims) - Owed({}, released), bits, dups, b);
    }

    /** `pass4check`. */
    method Pass4Check(ghost ino: nat, chunk: Chunk) returns (r: Result)
      requires Phase4()
      modifies this`bits, this`dups, this`released
      ensures Phase4() && released == old(released) + Frags(a, ino, chunk.blk, chunk.frags)
      ensures r == if Skips(a, chunk) then Skip else KeepOn
    {
      hide Balanced, ValidArea, OutRange, Owed;
      r := KeepOn;
      ghost var r0 := released;
      var n: nat := 0;
      while n < chunk.frags
        invariant n <= chunk.frags && Phase4() && released == r0 + Frags(a, ino, chunk.blk, n)
        invariant r == if SkipsUpTo(a, chunk.blk, n) then Skip else KeepOn
      {
        var b := chunk.blk + n;
        var out := CheckRange(a, b, 1);
        if out {
          r := Skip;
        } else {
          InRangeBounds(a, b);
          ReleaseFragment(ino, b);
        }
        SkipStep(a, chunk.blk, n);
        n := n + 1;
      }
    }

    method Pass4Inode(inode: Inode)
      requires Phase4()
      modifies this`bits, this`dups, this`released
      ensures Phase4() && released == old(released) + ChunkClaims(a, inode.ino, inode.chunks)
    {
      var chunks := inode.chunks;
      ghost var ino, r0 := inode.ino, released;
      ChunkStart(a, ino, chunks);
      hide Balanced, ValidArea, OutRange, Owed, Frags, ChunkClaims, Skips;
      for k := 0 to |chunks|
        invariant Phase4() && released == r0 + ChunkClaims(a, ino, chunks[..k])
      {
        var _ := Pass4Check(ino, chunks[k]);
        ChunkStep(a, ino, chunks, k, r0, {});
      }
      assert chunks[..|chunks|] == chunks;
    }

    /** Phase 4 clears the inodes of `clear`. */
    method Pass4(inodes: seq<Inode>, clear: set<nat>)
      requires Phase4() && claims == AllClaims(a, inodes) && released == []
      modifies this`bits, this`dups, this`released
      ensures Phase4() && Balanced(a.fmax, Owed(reserved, KeptClaims(a, inodes, clear)), bits, dups)
    {
      assert inodes[..0] == [] && inodes[..|inodes|] == inodes;
      KeptAndReleased(a, inodes, clear, reserved, |inodes|);
      assert ReleasedClaims(a, inodes[..0], clear) == [];
      hide Balanced, ValidArea, OutRange, Owed, Frags, ChunkClaims, ReleasedClaims, KeptClaims, AllClaims;
      for k := 0 to |inodes|
        invariant Phase4() && released == ReleasedClaims(a, inodes[..k], clear)
      {
        ClaimsStep(a, inodes, clear, k);
        if inodes[k].ino in clear {
          Pass4Inode(inodes[k]);
        }
      }
      SumsStep(Owed(reserved, claims), Owed(reserved, KeptClaims(a, inodes, clear)),
        Owed({}, ReleasedClaims(a, inodes, clear)), multiset{});
    }

    /** Phases 1, 1b and 4. Phase 4 clears the marked inodes unless the operator refuses, and others that
        the directory phases found unreferenced. */
    method Check(inodes: seq<Inode>, unreferenced: set<nat>, refused: set<nat>) returns (complete: bool)
      requires Phase1() && claims == [] && bad == {} && seen == [] && released == [] && head == 0
      modifies this
      ensures ValidArea(a)
      ensures complete <==> NoneGivenUp(a, reserved, inodes, |inodes|)
      ensures complete ==> forall ino :: ino in marked <==>
        ClaimsShared(reserved, AllClaims(a, inodes), ino) || ino in AllBad(a, inodes)
      ensures complete ==>
        var kept := KeptClaims(a, inodes, marked + unreferenced - refused);
        Balanced(a.fmax, Owed(reserved, kept), bits, dups)
      ensures complete && refused !! marked ==>
        var kept := KeptClaims(a, inodes, marked + unreferenced - refused);
        && dups == [] && |bits| == a.fmax
        && forall b: nat | b < a.fmax :: Owed(reserved, kept)[b] == if bits[b] then 1 else 0
    {
      hide Balanced, FirstsOk, OutRange, Owed, Repeats, Firsts, Searching, ClaimsShared, AllClaims, AllBad, KeptClaims,
        NoneGivenUp;
      complete := Pass1(inodes);
      if !complete {
        return;
      }
      ghost var cs, owedAll := claims, Owed(reserved, claims);
      BitsSize(a.fmax, owedAll, bits, dups, firsts);
      ghost var f := set d | d in dups[..firsts];
      StartSearch(a, reserved, inodes, bits, dups, firsts, f);
      ghost var d0, repeats := dups, marked;
      if dups != [] {
        Pass1b(inodes, f);
      } else {
        SearchOver(f, [], dups, firsts, cs);
      }
      MarkedExactly(reserved, cs, f, bad, marked);
      BalancedPermuted(a.fmax, owedAll, bits, d0, dups);
      NothingReleased(owedAll);
      Pass4(inodes, marked + unreferenced - refused);
      if refused !! marked {
        NoneLeft(a, reserved, inodes, marked + unreferenced - refused, bits, dups);
      }
    }
  }

  /** Phase 1 marks the later claimants and phase 1b the first ones. */
  lemma {:induction false} MarkedExactly(reserved: set<nat>, cs: seq<Claim>, f: set<nat>, bad: set<nat>, marked: set<nat>)
    requires SharedSet(reserved, cs, f) && marked == Repeats(reserved, cs) + bad + Firsts(f, cs)
    ensures forall ino :: ino in marked <==> ClaimsShared(reserved, cs, ino) || ino in bad
  {
    forall ino: nat
      ensures ino in marked <==> ClaimsShared(reserved, cs, ino) || ino in bad
    {
      assert cs[..|cs|] == cs;
      MarkedPrefix(reserved, cs, f, |cs|, ino);
      SharesIsShared(reserved, cs, f, ino);
    }
  }

  lemma {:induction false} SharesIsShared(reserved: set<nat>, cs: seq<Claim>, f: set<nat>, ino: nat)
    requires SharedSet(reserved, cs, f)
    ensures Shares(f, cs, ino) <==> ClaimsShared(reserved, cs, ino)
  {
    if Shares(f, cs, ino) {
      var k :| 0 <= k < |cs| && cs[k].ino == ino && cs[k].blk in f;
      assert cs[k] in cs;
    }
    if ClaimsShared(reserved, cs, ino) {
      var k :| 0 <= k < |cs| && cs[k].ino == ino && Owed(reserved, cs)[cs[k].blk] >= 2;
      assert cs[k] in cs;
    }
  }

  /** When every claimant of a shared fragment is cleared, no fragment is shared any more. */
  lemma {:induction false} NoneLeft(a: Area, reserved: set<nat>, inodes: seq<Inode>, clear: set<nat>, bits: seq<bool>,
      dups: seq<nat>)
    requires ValidArea(a) && Balanced(a.fmax, Owed(reserved, KeptClaims(a, inodes, clear)), bits, dups)
    requires forall ino | ClaimsShared(reserved, AllClaims(a, inodes), ino) :: ino in clear
    ensures dups == [] && |bits| == a.fmax
    ensures forall b: nat | b < a.fmax :: Owed(reserved, KeptClaims(a, inodes, clear))[b] == if bits[b] then 1 else 0
  {
    hide AllClaims, KeptClaims, ReleasedClaims, Owed, ClaimsShared, Balanced;
    HeadOwed(a.fmax, Owed(reserved, KeptClaims(a, inodes, clear)), bits, dups);
    var all, kept := AllClaims(a, inodes), KeptClaims(a, inodes, clear);
    forall b: nat
      ensures Owed(reserved, kept)[b] <= 1
    {
      if Touches(kept, b) {
        var k :| 0 <= k < |kept| && kept[k].blk == b;
        KeptInAll(a, inodes, clear, kept[k]);
        assert inodes[..|inodes|] == inodes;
        KeptAndReleased(a, inodes, clear, reserved, |inodes|);
        if Owed(reserved, kept)[b] >= 2 {
          SharedBy(reserved, all, kept[k]);
        }
      } else {
        OwedUntouched(reserved, kept, b);
      }
    }
  }

  lemma {:induction false} HeadOwed(n: nat, owed: multiset<nat>, bits: seq<bool>, dups: seq<nat>)
    requires Balanced(n, owed, bits, dups)
    ensures |bits| == n && (dups != [] ==> owed[dups[0]] >= 2)
    ensures forall b: nat | b < n && owed[b] <= 1 :: owed[b] == if bits[b] then 1 else 0
  {
    if dups != [] {
      assert dups[0] in dups && dups[0] in multiset(dups);
    }
  }

  lemma {:induction false} SharedBy(reserved: set<nat>, cs: seq<Claim>, c: Claim)
    requires c in cs && Owed(reserved, cs)[c.blk] >= 2
    ensures ClaimsShared(reserved, cs, c.ino)
  {
    var k :| 0 <= k < |cs| && cs[k] == c;
  }

  /** A kept claim belongs to an inode that is not cleared. */
  lemma {:induction false} KeptInAll(a: Area, inodes: seq<Inode>, clear: set<nat>, c: Claim)
    requires ValidArea(a) && c in KeptClaims(a, inodes, clear)
    ensures c in AllClaims(a, inodes) && c.ino !in clear
  {
    hide ChunkClaims;
    var n := |inodes| - 1;
    if c in KeptClaims(a, inodes[..n], clear) {
      KeptInAll(a, inodes[..n], clear, c);
    } else {
      ChunkOwner(a, inodes[n].ino, inodes[n].chunks, c);
    }
  }

  lemma {:induction false} ChunkOwner(a: Area, ino: nat, chunks: seq<Chunk>, c: Claim)
    requires ValidArea(a) && c in ChunkClaims(a, ino, chunks)
    ensures c.ino == ino
  {
    var n := |chunks| - 1;
    if c in ChunkClaims(a, ino, chunks[..n]) {
      ChunkOwner(a, ino, chunks[..n], c);
    } else {
      FragOwner(a, ino, chunks[n].blk, chunks[n].frags, c);
    }
  }

  lemma {:induction false} FragOwner(a: Area, ino: nat, blk: int, n: nat, c: Claim)
    requires ValidArea(a) && c in Frags(a, ino, blk, n)
    ensures c.ino == ino
  {
    if c in Frags(a, ino, blk, n - 1) {
      FragOwner(a, ino, blk, n - 1, c);
    }
  }

  /** The inode claims a fragment that is claimed twice. */
  ghost predicate ClaimsShared(reserved: set<nat>, cs: seq<Claim>, ino: nat) {
    exists k :: 0 <= k < |cs| && cs[k].ino == ino && Owed(reserved, cs)[cs[k].blk] >= 2
  }

  lemma {:induction false} BalancedPermuted(n: nat, owed: multiset<nat>, bits: seq<bool>, dups: seq<nat>, more: seq<nat>)
    requires Balanced(n, owed, bits, dups) && multiset(more) == multiset(dups)
    ensures Balanced(n, owed, bits, more)
  {
    forall d | d in more
      ensures d < n
    {
      assert d in multiset(more);
      assert d in multiset(dups);
      assert d in dups;
    }
  }

  ghost predicate AllInRange(a: Area, cs: seq<Claim>)
    requires ValidArea(a)
  {
    forall c | c in cs :: !OutRange(a, c.blk, 1)
  }

  lemma {:induction false} FragsInRange(a: Area, ino: nat, blk: int, n: nat)
    requires ValidArea(a)
    ensures AllInRange(a, Frags(a, ino, blk, n))
  {
    if n > 0 {
      FragsInRange(a, ino, blk, n - 1);
    }
  }

  lemma {:induction false} ChunksInRange(a: Area, ino: nat, chunks: seq<Chunk>)
    requires ValidArea(a)
    ensures AllInRange(a, ChunkClaims(a, ino, chunks))
  {
    if chunks != [] {
      var n := |chunks| - 1;
      ChunksInRange(a, ino, chunks[..n]);
      FragsInRange(a, ino, chunks[n].blk, chunks[n].frags);
    }
  }

  lemma {:induction false} ClaimsInRange(a: Area, inodes: seq<Inode>)
    requires ValidArea(a)
    ensures AllInRange(a, AllClaims(a, inodes))
  {
    if inodes != [] {
      var n := |inodes| - 1;
      ClaimsInRange(a, inodes[..n]);
      ChunksInRange(a, inodes[n].ino, inodes[n].chunks);
    }
  }

  /** A fragment that is not claimed by an inode is owed at most the reserved claim. */
  lemma {:induction false} OwedUntouched(reserved: set<nat>, cs: seq<Claim>, b: nat)
    requires !Touches(cs, b)
    ensures Owed(reserved, cs)[b] <= 1
  {
    if cs != [] {
      var n := |cs| - 1;
      var front, c := cs[..n], cs[n];
      assert cs == front + [c];
      TouchesStep(front, c, b);
      OwedUntouched(reserved, front, b);
    }
  }

  /** Phase 1b starts from phase 1's list. */
  lemma {:induction false} StartSearch(a: Area, reserved: set<nat>, inodes: seq<Inode>, bits: seq<bool>, dups: seq<nat>,
      firsts: nat, f: set<nat>)
    requires ValidArea(a) && FirstsOk(dups, firsts) && f == set d | d in dups[..firsts]
    requires Balanced(a.fmax, Owed(reserved, AllClaims(a, inodes)), bits, dups)
    ensures SharedSet(reserved, AllClaims(a, inodes), f) && Searching(f, [], dups, firsts, 0) && Firsts(f, []) == {}
    ensures forall b | b in f :: !OutRange(a, b, 1)
  {
    hide AllClaims, OutRange, Balanced, Owed;
    var cs := AllClaims(a, inodes);
    ClaimsInRange(a, inodes);
    forall c | c in cs
      ensures c.blk in f <==> Owed(reserved, cs)[c.blk] >= 2
    {
      InRangeBounds(a, c.blk);
      SharedAreListed(a.fmax, Owed(reserved, cs), bits, dups, firsts, c.blk);
    }
    forall i | 0 <= i < firsts
      ensures dups[i] in f
    {
      assert dups[i] in dups[..firsts];
    }
    forall b | b in f
      ensures !OutRange(a, b, 1)
    {
      ListedBelow(a.fmax, Owed(reserved, cs), bits, dups, firsts, b);
      SharedAreListed(a.fmax, Owed(reserved, cs), bits, dups, firsts, b);
      if !Touches(cs, b) {
        OwedUntouched(reserved, cs, b);
      }
      var k :| 0 <= k < |cs| && cs[k].blk == b;
      assert cs[k] in cs;
    }
  }

  lemma {:induction false} ListedBelow(n: nat, owed: multiset<nat>, bits: seq<bool>, dups: seq<nat>, firsts: nat, b: nat)
    requires Balanced(n, owed, bits, dups) && firsts <= |dups| && b in dups[..firsts]
    ensures b < n
  {
    var k :| 0 <= k < firsts && dups[..firsts][k] == b;
    assert dups[k] == b && dups[k] in dups;
  }

  ghost function KeptClaims(a: Area, inodes: seq<Inode>, clear: set<nat>): seq<Claim>
    requires ValidArea(a)
  {
    if inodes == [] then [] else
      var n := |inodes| - 1;
      KeptClaims(a, inodes[..n], clear)
      + if inodes[n].ino in clear then [] else ChunkClaims(a, inodes[n].ino, inodes[n].chunks)
  }

  ghost function ReleasedClaims(a: Area, inodes: seq<Inode>, clear: set<nat>): seq<Claim>
    requires ValidArea(a)
  {
    if inodes == [] then [] else
      var n := |inodes| - 1;
      ReleasedClaims(a, inodes[..n], clear)
      + if inodes[n].ino in clear then ChunkClaims(a, inodes[n].ino, inodes[n].chunks) else []
  }

  /** A whole run of the checker over a volume. */
  method CheckVolume(a: Area, reserved: set<nat>, inodes: seq<Inode>, unreferenced: set<nat>, refused: set<nat>)
    returns (f: Fsck, complete: bool)
    requires ValidArea(a)
    ensures fresh(f) && f.a == a
    ensures complete <==> NoneGivenUp(a, reserved, inodes, |inodes|)
    ensures complete && refused !! f.marked ==>
      var kept := KeptClaims(a, inodes, f.marked + unreferenced - refused);
      && f.dups == [] && |f.bits| == a.fmax
      && forall b: nat | b < a.fmax :: Owed(reserved, kept)[b] == if f.bits[b] then 1 else 0
  {
    hide Owed, KeptClaims, Balanced, NoneGivenUp;
    f := new Fsck(a, reserved);
    complete := f.Check(inodes, unreferenced, refused);
  }

  lemma {:induction false} NothingReleased(all: multiset<nat>)
    ensures all - Owed({}, []) == all
  {
  }

  lemma {:induction false} OwedNone()
    ensures Owed({}, []) == multiset{}
  {
  }

  lemma {:induction false} OwedPush(reserved: set<nat>, cs: seq<Claim>, c: Claim)
    ensures Owed(reserved, cs + [c]) == Owed(reserved, cs) + multiset{c.blk}
  {
    assert (cs + [c])[..|cs|] == cs;
  }

  lemma {:induction false} OwedConcat(reserved: set<nat>, a: seq<Claim>, b: seq<Claim>)
    ensures Owed(reserved, a + b) == Owed(reserved, a) + Owed({}, b)
  {
    hide Owed;
    if b == [] {
      assert a + b == a;
      OwedNone();
    } else {
      var n := |b| - 1;
      OwedConcat(reserved, a, b[..n]);
      assert a + b == (a + b[..n]) + [b[n]] && b == b[..n] + [b[n]];
      OwedPush(reserved, a + b[..n], b[n]);
      OwedPush({}, b[..n], b[n]);
      OneMore(Owed(reserved, a + b[..n]), Owed(reserved, a), Owed({}, b[..n]), multiset{b[n].blk});
    }
  }

  lemma {:induction false} OneMore(all: multiset<nat>, x: multiset<nat>, y: multiset<nat>, c: multiset<nat>)
    requires all == x + y
    ensures all + c == x + (y + c)
  {
  }

  lemma {:induction false} ClaimsStep(a: Area, inodes: seq<Inode>, clear: set<nat>, k: nat)
    requires ValidArea(a) && k < |inodes|
    ensures var cs := ChunkClaims(a, inodes[k].ino, inodes[k].chunks);
      && AllClaims(a, inodes[..k + 1]) == AllClaims(a, inodes[..k]) + cs
      && KeptClaims(a, inodes[..k + 1], clear)
         == KeptClaims(a, inodes[..k], clear) + (if inodes[k].ino in clear then [] else cs)
      && ReleasedClaims(a, inodes[..k + 1], clear)
         == ReleasedClaims(a, inodes[..k], clear) + (if inodes[k].ino in clear then cs else [])
  {
    assert inodes[..k + 1][..k] == inodes[..k];
  }

  lemma {:induction false} SumsStep(all: multiset<nat>, kept: multiset<nat>, released: multiset<nat>, x: multiset<nat>)
    requires all == kept + released
    ensures all + x == (kept + x) + released && all + x == kept + (released + x)
    ensures all - released == kept
  {
  }

  /** Every claim is kept or released. */
  lemma {:induction false} KeptAndReleased(a: Area, inodes: seq<Inode>, clear: set<nat>, reserved: set<nat>, n: nat)
    requires ValidArea(a) && n <= |inodes|
    ensures Owed(reserved, AllClaims(a, inodes[..n]))
      == Owed(reserved, KeptClaims(a, inodes[..n], clear)) + Owed({}, ReleasedClaims(a, inodes[..n], clear))
  {
    if n == 0 {
      OwedNone();
    } else {
      KeptAndReleased(a, inodes, clear, reserved, n - 1);
      KeptAndReleasedStep(a, inodes, clear, reserved, n - 1);
    }
  }

  lemma {:induction false} KeptAndReleasedStep(a: Area, inodes: seq<Inode>, clear: set<nat>, reserved: set<nat>, k: nat)
    requires ValidArea(a) && k < |inodes|
    requires Owed(reserved, AllClaims(a, inodes[..k]))
      == Owed(reserved, KeptClaims(a, inodes[..k], clear)) + Owed({}, ReleasedClaims(a, inodes[..k], clear))
    ensures Owed(reserved, AllClaims(a, inodes[..k + 1]))
      == Owed(reserved, KeptClaims(a, inodes[..k + 1], clear)) + Owed({}, ReleasedClaims(a, inodes[..k + 1], clear))
  {
    hide *;
    ClaimsStep(a, inodes, clear, k);
    var cs := ChunkClaims(a, inodes[k].ino, inodes[k].chunks);
    var all, kept, released := AllClaims(a, inodes[..k]), KeptClaims(a, inodes[..k], clear), ReleasedClaims(a, inodes[..k], clear);
    OwedConcat(reserved, all, cs);
    OwedConcat(reserved, kept, cs);
    OwedConcat({}, released, cs);
    assert kept + [] == kept && released + [] == released;
    SumsStep(Owed(reserved, all), Owed(reserved, kept), Owed({}, released), Owed({}, cs));
  }

  lemma {:induction false} MinusTwice(o: multiset<nat>, x: multiset<nat>, y: multiset<nat>)
    ensures (o - x) - y == o - (x + y)
  {
  }

  lemma {:induction false} BalancedMeans(n: nat, owed: multiset<nat>, bits: seq<bool>, dups: seq<nat>, b: nat)
    requires Balanced(n, owed, bits, dups) && b < n
    ensures |bits| == n && (bits[b] <==> owed[b] > 0)
    ensures !bits[b] ==> owed - multiset{b} == owed
  {
  }

  lemma {:induction false} FragsPrefix(a: Area, ino: nat, blk: int, n: nat, m: nat)
    requires ValidArea(a) && n <= m
    ensures Frags(a, ino, blk, n) <= Frags(a, ino, blk, m)
  {
    if n < m {
      FragsPrefix(a, ino, blk, n, m - 1);
    }
  }

  lemma {:induction false} ChunkPrefix(a: Area, ino: nat, chunks: seq<Chunk>, k: nat)
    requires ValidArea(a) && k <= |chunks|
    ensures ChunkClaims(a, ino, chunks[..k]) <= ChunkClaims(a, ino, chunks)
    decreases |chunks|
  {
    if k < |chunks| {
      var front := chunks[..|chunks| - 1];
      assert front[..k] == chunks[..k];
      ChunkPrefix(a, ino, front, k);
    } else {
      assert chunks[..k] == chunks;
    }
  }

  lemma {:induction false} AllPrefix(a: Area, inodes: seq<Inode>, k: nat)
    requires ValidArea(a) && k <= |inodes|
    ensures AllClaims(a, inodes[..k]) <= AllClaims(a, inodes)
    decreases |inodes|
  {
    if k < |inodes| {
      var front := inodes[..|inodes| - 1];
      assert front[..k] == inodes[..k];
      AllPrefix(a, front, k);
    } else {
      assert inodes[..k] == inodes;
    }
  }

  /** With nothing left to find, the rest of the walk would change nothing. */
  lemma {:induction false} SearchOver(f: set<nat>, cs: seq<Claim>, dups: seq<nat>, firsts: nat, more: seq<Claim>)
    requires Searching(f, cs, dups, firsts, firsts) && cs <= more
    ensures Searching(f, more, dups, firsts, firsts) && Firsts(f, more) == Firsts(f, cs)
  {
    forall b | b in f
      ensures Touches(cs, b)
    {
      var k :| 0 <= k < firsts && dups[..firsts][k] == b;
      assert dups[k] == b;
    }
    assert more == cs + more[|cs|..];
    AllFound(f, cs, more[|cs|..]);
    forall i | 0 <= i < firsts
      ensures Touches(more, dups[i])
    {
      var k :| 0 <= k < |cs| && cs[k].blk == dups[i];
      assert more[k].blk == dups[i];
    }
  }

  /** The inode, if a chunk of it is out of range. */
  ghost function BadChunks(a: Area, ino: nat, chunks: seq<Chunk>): set<nat>
    requires ValidArea(a)
  {
    if chunks == [] then {} else
      var n := |chunks| - 1;
      BadChunks(a, ino, chunks[..n]) + if OutRange(a, chunks[n].blk, chunks[n].frags) then {ino} else {}
  }

  ghost function AllBad(a: Area, inodes: seq<Inode>): set<nat>
    requires ValidArea(a)
  {
    if inodes == [] then {} else
      var n := |inodes| - 1;
      AllBad(a, inodes[..n]) + BadChunks(a, inodes[n].ino, inodes[n].chunks)
  }

  lemma {:induction false} AllNext(a: Area, inodes: seq<Inode>, k: nat)
    requires ValidArea(a) && k < |inodes|
    ensures AllClaims(a, inodes[..k + 1]) == AllClaims(a, inodes[..k]) + ChunkClaims(a, inodes[k].ino, inodes[k].chunks)
    ensures AllBad(a, inodes[..k + 1]) == AllBad(a, inodes[..k]) + BadChunks(a, inodes[k].ino, inodes[k].chunks)
  {
    assert inodes[..k + 1][..k] == inodes[..k];
  }

  lemma {:induction false} ChunkStart(a: Area, ino: nat, chunks: seq<Chunk>)
    requires ValidArea(a)
    ensures ChunkClaims(a, ino, chunks[..0]) == [] && BadChunks(a, ino, chunks[..0]) == {}
  {
  }

  lemma {:induction false} ChunkStep(a: Area, ino: nat, chunks: seq<Chunk>, k: nat, claims: seq<Claim>, bad: set<nat>)
    requires ValidArea(a) && k < |chunks|
    ensures claims + ChunkClaims(a, ino, chunks[..k + 1])
      == claims + ChunkClaims(a, ino, chunks[..k]) + Frags(a, ino, chunks[k].blk, chunks[k].frags)
    ensures bad + BadChunks(a, ino, chunks[..k + 1])
      == bad + BadChunks(a, ino, chunks[..k]) + if OutRange(a, chunks[k].blk, chunks[k].frags) then {ino} else {}
  {
    assert chunks[..k + 1][..k] == chunks[..k];
  }

  lemma {:induction false} SearchBounds(f: set<nat>, cs: seq<Claim>, dups: seq<nat>, firsts: nat, head: nat)
    requires Searching(f, cs, dups, firsts, head)
    ensures head <= firsts <= |dups|
  {
  }

  lemma {:induction false} SkipStep(a: Area, blk: int, n: nat)
    requires ValidArea(a)
    ensures SkipsUpTo(a, blk, n + 1) <==> SkipsUpTo(a, blk, n) || OutRange(a, blk + n, 1)
  {
    if OutRange(a, blk + n, 1) {
      assert OutRange(a, Plus(blk, n), 1);
    }
  }

  ghost predicate SkipsUpTo(a: Area, blk: int, n: nat)
    requires ValidArea(a)
  {
    exists k: nat :: k < n && OutRange(a, Plus(blk, k), 1)
  }

  ghost function Plus(x: int, k: nat): int {
    x + k
  }

  /** The chunk holds a fragment out of range: its index block is not followed. */
  ghost predicate Skips(a: Area, chunk: Chunk)
    requires ValidArea(a)
  {
    SkipsUpTo(a, chunk.blk, chunk.frags)
  }

  lemma {:induction false} InRangeBounds(a: Area, b: int)
    requires ValidArea(a) && !OutRange(a, b, 1)
    ensures 0 <= b < a.fmax
  {
  }

  lemma {:induction false} BitsSize(n: nat, owed: multiset<nat>, bits: seq<bool>, dups: seq<nat>, firsts: nat)
    requires Balanced(n, owed, bits, dups) && FirstsOk(dups, firsts)
    ensures |bits| == n && firsts <= |dups|
    ensures forall b: nat | b < n :: bits[b] <==> owed[b] > 0
  {
  }
}
