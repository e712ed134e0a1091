/** fsck's fragment accounting: the run-presence tables and the around/inside mask scan. */
module FragAcct {
  import opened GroupSpec
  import opened Runs

  /** Wide enough for every value the scan forms: a 10-bit pattern shifted by at most 9. */
  type Mask = bv20

  function Pick(i: Mask, a: Mask, b: Mask, c: Mask, d: Mask, e: Mask, f: Mask, g: Mask, h: Mask): Mask {
    if i & 4 == 0 then
      if i & 2 == 0 then (if i & 1 == 0 then a else b) else (if i & 1 == 0 then c else d)
    else
      if i & 2 == 0 then (if i & 1 == 0 then e else f) else (if i & 1 == 0 then g else h)
  }

  /** Run-presence table for 1, 2 or 4 fragments per block. A block map of at most 4 bits reaches
      only the first 16 of the source's 256 entries. */
  function FragTbl124(m: Mask): Mask {
    match m >> 3
    case 0 => Pick(m & 7, 0x00, 0x16, 0x16, 0x2a, 0x16, 0x16, 0x26, 0x4e)
    case 1 => Pick(m & 7, 0x16, 0x16, 0x16, 0x3e, 0x2a, 0x3e, 0x4e, 0x8a)
    case _ => 0
  }

  /** Run-presence table for 8 fragments per block. */
  function FragTbl8(m: Mask): Mask {
    if m >> 6 == 0 then Pick((m >> 3) & 7,
      Pick(m & 7, 0x00, 0x01, 0x01, 0x02, 0x01, 0x01, 0x02, 0x04),
      Pick(m & 7, 0x01, 0x01, 0x01, 0x03, 0x02, 0x03, 0x04, 0x08),
      Pick(m & 7, 0x01, 0x01, 0x01, 0x03, 0x01, 0x01, 0x03, 0x05),
      Pick(m & 7, 0x02, 0x03, 0x03, 0x02, 0x04, 0x05, 0x08, 0x10),
      Pick(m & 7, 0x01, 0x01, 0x01, 0x03, 0x01, 0x01, 0x03, 0x05),
      Pick(m & 7, 0x01, 0x01, 0x01, 0x03, 0x03, 0x03, 0x05, 0x09),
      Pick(m & 7, 0x02, 0x03, 0x03, 0x02, 0x03, 0x03, 0x02, 0x06),
      Pick(m & 7, 0x04, 0x05, 0x05, 0x06, 0x08, 0x09, 0x10, 0x20))
    else if m >> 6 == 1 then Pick((m >> 3) & 7,
      Pick(m & 7, 0x01, 0x01, 0x01, 0x03, 0x01, 0x01, 0x03, 0x05),
      Pick(m & 7, 0x01, 0x01, 0x01, 0x03, 0x03, 0x03, 0x05, 0x09),
      Pick(m & 7, 0x01, 0x01, 0x01, 0x03, 0x01, 0x01, 0x03, 0x05),
      Pick(m & 7, 0x03, 0x03, 0x03, 0x03, 0x05, 0x05, 0x09, 0x11),
      Pick(m & 7, 0x02, 0x03, 0x03, 0x02, 0x03, 0x03, 0x02, 0x06),
      Pick(m & 7, 0x03, 0x03, 0x03, 0x03, 0x02, 0x03, 0x06, 0x0a),
      Pick(m & 7, 0x04, 0x05, 0x05, 0x06, 0x05, 0x05, 0x06, 0x04),
      Pick(m & 7, 0x08, 0x09, 0x09, 0x0a, 0x10, 0x11, 0x20, 0x40))
    else if m >> 6 == 2 then Pick((m >> 3) & 7,
      Pick(m & 7, 0x01, 0x01, 0x01, 0x03, 0x01, 0x01, 0x03, 0x05),
      Pick(m & 7, 0x01, 0x01, 0x01, 0x03, 0x03, 0x03, 0x05, 0x09),
      Pick(m & 7, 0x01, 0x01, 0x01, 0x03, 0x01, 0x01, 0x03, 0x05),
      Pick(m & 7, 0x03, 0x03, 0x03, 0x03, 0x05, 0x05, 0x09, 0x11),
      Pick(m & 7, 0x01, 0x01, 0x01, 0x03, 0x01, 0x01, 0x03, 0x05),
      Pick(m & 7, 0x01, 0x01, 0x01, 0x03, 0x03, 0x03, 0x05, 0x09),
      Pick(m & 7, 0x03, 0x03, 0x03, 0x03, 0x03, 0x03, 0x03, 0x07),
      Pick(m & 7, 0x05, 0x05, 0x05, 0x07, 0x09, 0x09, 0x11, 0x21))
    else Pick((m >> 3) & 7,
      Pick(m & 7, 0x02, 0x03, 0x03, 0x02, 0x03, 0x03, 0x02, 0x06),
      Pick(m & 7, 0x03, 0x03, 0x03, 0x03, 0x02, 0x03, 0x06, 0x0a),
      Pick(m & 7, 0x03, 0x03, 0x03, 0x03, 0x03, 0x03, 0x03, 0x07),
      Pick(m & 7, 0x02, 0x03, 0x03, 0x02, 0x06, 0x07, 0x0a, 0x12),
      Pick(m & 7, 0x04, 0x05, 0x05, 0x06, 0x05, 0x05, 0x06, 0x04),
      Pick(m & 7, 0x05, 0x05, 0x05, 0x07, 0x06, 0x07, 0x04, 0x0c),
      Pick(m & 7, 0x08, 0x09, 0x09, 0x0a, 0x09, 0x09, 0x0a, 0x0c),
      Pick(m & 7, 0x10, 0x11, 0x11, 0x12, 0x20, 0x21, 0x40, 0x80))
  }

  /** Bit patterns for a run of `siz` fragments with a used neighbour on each side. */
  function Around(siz: nat): Mask {
    match siz
    case 0 => 0x3 case 1 => 0x7 case 2 => 0xf case 3 => 0x1f case 4 => 0x3f
    case 5 => 0x7f case 6 => 0xff case 7 => 0x1ff case 8 => 0x3ff case _ => 0
  }

  function Inside(siz: nat): Mask {
    match siz
    case 0 => 0x0 case 1 => 0x2 case 2 => 0x6 case 3 => 0xe case 4 => 0x1e
    case 5 => 0x3e case 6 => 0x7e case 7 => 0xfe case 8 => 0x1fe case _ => 0
  }

  /** Left shift by the amounts the scan uses; at most `fs_frag + 1`. */
  function Shl(x: Mask, s: nat): Mask {
    match s
    case 0 => x
    case 1 => x << 1
    case 2 => x << 2
    case 3 => x << 3
    case 4 => x << 4
    case 5 => x << 5
    case 6 => x << 6
    case 7 => x << 7
    case 8 => x << 8
    case 9 => x << 9
    case _ => 0
  }

  function Bit(blk: seq<bool>, i: nat): bool {
    i < |blk| && blk[i]
  }

  /** The block map of `blk`: bit `i` is set when fragment `i` is free. */
  function MapOf(blk: seq<bool>): Mask {
    (if Bit(blk, 0) then 0x1 else 0) | (if Bit(blk, 1) then 0x2 else 0) |
    (if Bit(blk, 2) then 0x4 else 0) | (if Bit(blk, 3) then 0x8 else 0) |
    (if Bit(blk, 4) then 0x10 else 0) | (if Bit(blk, 5) then 0x20 else 0) |
    (if Bit(blk, 6) then 0x40 else 0) | (if Bit(blk, 7) then 0x80 else 0)
  }

  /** The mask test on block map `m` succeeds at shift `s`. */
  predicate Match(m: Mask, siz: nat, s: nat) {
    (m << 1) & Shl(Around(siz), s) == Shl(Inside(siz), s)
  }

  /** `IsRun` over the padded bits, as the mask test sees them. */
  lemma RunByBits(blk: seq<bool>, siz: nat, s: nat)
    requires BlockSize(|blk|) && 1 <= siz < |blk| && s + siz <= |blk|
    ensures IsRun(blk, s, siz) <==> Window(blk, siz, s)
  {
    if IsRun(blk, s, siz) {
      assert forall j | s <= j < s + siz :: Bit(blk, j);
    }
    if forall j | s <= j < s + siz :: Bit(blk, j) {
      forall j | s <= j < s + siz ensures blk[j] { assert Bit(blk, j); }
    }
  }

  /** The mask test succeeds at shift `s` exactly when a maximal run of `siz` starts there. */
  lemma MatchIsRun(blk: seq<bool>, siz: nat, s: nat)
    requires BlockSize(|blk|) && 1 <= siz < |blk| && s + siz <= |blk|
    ensures Match(MapOf(blk), siz, s) <==> IsRun(blk, s, siz)
  {
    RunByBits(blk, siz, s);
    if siz == 1 {
      Match1(blk, s);
    } else if siz == 2 {
      Match2(blk, s);
    } else if siz == 3 {
      Match3(blk, s);
    } else if siz == 4 {
      Match4(blk, s);
    } else {
      MatchLong(blk, siz, s);
    }
  }

  predicate Window(blk: seq<bool>, siz: nat, s: nat) {
    && (forall j | s <= j < s + siz :: Bit(blk, j))
    && (s == 0 || !Bit(blk, s - 1)) && !Bit(blk, s + siz)
  }

  lemma Match1(blk: seq<bool>, s: nat)
    requires |blk| <= 8 && s + 1 <= 8
    ensures Match(MapOf(blk), 1, s) <==> Window(blk, 1, s)
  {
  }

  lemma Match2(blk: seq<bool>, s: nat)
    requires |blk| <= 8 && s + 2 <= 8
    ensures Match(MapOf(blk), 2, s) <==> Window(blk, 2, s)
  {
  }

  lemma Match3(blk: seq<bool>, s: nat)
    requires |blk| <= 8 && s + 3 <= 8
    ensures Match(MapOf(blk), 3, s) <==> Window(blk, 3, s)
  {
  }

  lemma Match4(blk: seq<bool>, s: nat)
    requires |blk| <= 8 && s + 4 <= 8
    ensures Match(MapOf(blk), 4, s) <==> Window(blk, 4, s)
  {
  }

  lemma MatchLong(blk: seq<bool>, siz: nat, s: nat)
    requires |blk| <= 8 && 5 <= siz <= 7 && s + siz <= 8
    ensures Match(MapOf(blk), siz, s) <==> Window(blk, siz, s)
  {
  }

  /** `fragtbl[fs_frag]` claims that `m` holds a run of `siz` fragments. */
  predicate TableHas(f: nat, m: Mask, siz: nat)
    requires BlockSize(f) && 1 <= siz < f
  {
    var inblk := (if f == 8 then FragTbl8(m) else FragTbl124(m)) << 1;
    inblk & Shl(1, siz + f % 8) != 0
  }

  lemma Table8Run1(m: Mask)
    requires m < 0x100
    ensures TableHas(8, m, 1) <==>
      Match(m, 1, 0) || Match(m, 1, 1) || Match(m, 1, 2) || Match(m, 1, 3) || Match(m, 1, 4) || Match(m, 1, 5) || Match(m, 1, 6) || Match(m, 1, 7)
  {
  }

  lemma Table8Run2(m: Mask)
    requires m < 0x100
    ensures TableHas(8, m, 2) <==>
      Match(m, 2, 0) || Match(m, 2, 1) || Match(m, 2, 2) || Match(m, 2, 3) || Match(m, 2, 4) || Match(m, 2, 5) || Match(m, 2, 6)
  {
  }

  lemma Table8Run3(m: Mask)
    requires m < 0x100
    ensures TableHas(8, m, 3) <==>
      Match(m, 3, 0) || Match(m, 3, 1) || Match(m, 3, 2) || Match(m, 3, 3) || Match(m, 3, 4) || Match(m, 3, 5)
  {
  }

  lemma Table8Run4(m: Mask)
    requires m < 0x100
    ensures TableHas(8, m, 4) <==>
      Match(m, 4, 0) || Match(m, 4, 1) || Match(m, 4, 2) || Match(m, 4, 3) || Match(m, 4, 4)
  {
  }

  lemma Table8Run5(m: Mask)
    requires m < 0x100
    ensures TableHas(8, m, 5) <==>
      Match(m, 5, 0) || Match(m, 5, 1) || Match(m, 5, 2) || Match(m, 5, 3)
  {
  }

  lemma Table8Run6(m: Mask)
    requires m < 0x100
    ensures TableHas(8, m, 6) <==>
      Match(m, 6, 0) || Match(m, 6, 1) || Match(m, 6, 2)
  {
  }

  lemma Table8Run7(m: Mask)
    requires m < 0x100
    ensures TableHas(8, m, 7) <==>
      Match(m, 7, 0) || Match(m, 7, 1)
  {
  }

  lemma Table4Run1(m: Mask)
    requires m < 0x10
    ensures TableHas(4, m, 1) <==>
      Match(m, 1, 0) || Match(m, 1, 1) || Match(m, 1, 2) || Match(m, 1, 3)
  {
  }

  lemma Table4Run2(m: Mask)
    requires m < 0x10
    ensures TableHas(4, m, 2) <==>
      Match(m, 2, 0) || Match(m, 2, 1) || Match(m, 2, 2)
  {
  }

  lemma Table4Run3(m: Mask)
    requires m < 0x10
    ensures TableHas(4, m, 3) <==>
      Match(m, 3, 0) || Match(m, 3, 1)
  {
  }

  lemma Table2Run1(m: Mask)
    requires m < 0x4
    ensures TableHas(2, m, 1) <==>
      Match(m, 1, 0) || Match(m, 1, 1)
  {
  }

  lemma MapBelow(blk: seq<bool>)
    requires BlockSize(|blk|)
    ensures |blk| == 8 ==> MapOf(blk) < 0x100
    ensures |blk| == 4 ==> MapOf(blk) < 0x10
    ensures |blk| == 2 ==> MapOf(blk) < 0x4
  {
  }

  /** The presence tables are exact: the table bit is set when the block has a run of that length. */
  lemma TableExact(blk: seq<bool>, siz: nat)
    requires BlockSize(|blk|) && 1 <= siz < |blk|
    ensures TableHas(|blk|, MapOf(blk), siz) <==> exists s | 0 <= s <= |blk| - siz :: IsRun(blk, s, siz)
  {
    var m := MapOf(blk);
    MapBelow(blk);
    TableMatches(|blk|, m, siz);
    forall s: nat | s <= |blk| - siz
      ensures Match(m, siz, s) <==> IsRun(blk, s, siz)
    {
      MatchIsRun(blk, siz, s);
    }
  }

  lemma TableMatches(f: nat, m: Mask, siz: nat)
    requires BlockSize(f) && 1 <= siz < f
    requires (f == 8 ==> m < 0x100) && (f == 4 ==> m < 0x10) && (f == 2 ==> m < 0x4)
    ensures TableHas(f, m, siz) <==> exists s: nat | s <= f - siz :: Match(m, siz, s)
  {
    if f == 8 && siz == 1 {
      Table8Run1(m);
    } else if f == 8 && siz == 2 {
      Table8Run2(m);
    } else if f == 8 && siz == 3 {
      Table8Run3(m);
    } else if f == 8 && siz == 4 {
      Table8Run4(m);
    } else if f == 8 && siz == 5 {
      Table8Run5(m);
    } else if f == 8 && siz == 6 {
      Table8Run6(m);
    } else if f == 8 && siz == 7 {
      Table8Run7(m);
    } else if f == 4 && siz == 1 {
      Table4Run1(m);
    } else if f == 4 && siz == 2 {
      Table4Run2(m);
    } else if f == 4 && siz == 3 {
      Table4Run3(m);
    } else if f == 2 && siz == 1 {
      Table2Run1(m);
    }
  }

  lemma NoRunNoCount(blk: seq<bool>, siz: nat)
    requires 1 <= siz
    requires forall s | 0 <= s <= |blk| - siz :: !IsRun(blk, s, siz)
    ensures RunCount(blk, siz) == 0
  {
    RunsBeforeFlat(blk, siz, 0, |blk|);
  }

  /** fsck's `fragacct` adds one (its only caller passes `cnt` 1) to `fraglist[k]` for every maximal run of length `k`. */
  method Account(blk: seq<bool>, fraglist: seq<int>) returns (out: seq<int>)
    requires BlockSize(|blk|) && |blk| <= |fraglist|
    ensures |out| == |fraglist|
    ensures forall k | 1 <= k < |blk| :: out[k] == fraglist[k] + RunCount(blk, k)
    ensures forall k | 0 <= k < |out| && !(1 <= k < |blk|) :: out[k] == fraglist[k]
  {
    out := fraglist;
    var frag := |blk|;
    var fragmap := MapOf(blk);
    for siz := 1 to frag
      invariant |out| == |fraglist|
      invariant forall k | 1 <= k < siz :: out[k] == fraglist[k] + RunCount(blk, k)
      invariant forall k | 0 <= k < |out| && !(1 <= k < siz) :: out[k] == fraglist[k]
    {
      TableExact(blk, siz);
      if !TableHas(frag, fragmap, siz) {
        NoRunNoCount(blk, siz);
        continue;
      }
      out := ScanSize(blk, fragmap, siz, out);
    }
  }

  /** The inner scan for one run length. The source shifts its two masks by `siz` after a match and by
      one after every position, as it advances `pos`: at the test they are shifted by `pos - siz`. */
  method ScanSize(blk: seq<bool>, fragmap: Mask, siz: nat, fraglist: seq<int>) returns (out: seq<int>)
    requires BlockSize(|blk|) && 1 <= siz < |blk| <= |fraglist|
    requires fragmap == MapOf(blk)
    ensures out == fraglist[siz := fraglist[siz] + RunCount(blk, siz)]
  {
    out := fraglist;
    var pos := siz;
    while pos <= |blk|
      invariant siz <= pos <= |blk| + siz + 1
      invariant out == fraglist[siz := fraglist[siz] + RunsBefore(blk, siz, pos - siz)]
    {
      var found := TestAt(blk, fragmap, siz, pos - siz);
      if found {
        AfterRun(blk, siz, pos - siz);
        out := out[siz := out[siz] + 1];
        pos := pos + siz;
      }
      pos := pos + 1;
    }
    TailHasNoRun(blk, siz, pos - siz);
  }

  method TestAt(ghost blk: seq<bool>, fragmap: Mask, siz: nat, s: nat) returns (found: bool)
    requires BlockSize(|blk|) && 1 <= siz < |blk| && s + siz <= |blk|
    requires fragmap == MapOf(blk)
    ensures found <==> IsRun(blk, s, siz)
  {
    MatchIsRun(blk, siz, s);
    found := Match(fragmap, siz, s);
  }

  /** After a run of length `siz` at `s` the next possible start is `s + siz + 1`. */
  lemma AfterRun(blk: seq<bool>, siz: nat, s: nat)
    requires IsRun(blk, s, siz)
    ensures RunsBefore(blk, siz, s + siz + 1) == RunsBefore(blk, siz, s) + 1
  {
    assert RunsBefore(blk, siz, s + 1) == RunsBefore(blk, siz, s) + 1;
    forall j | s + 1 <= j < s + siz + 1 ensures !IsRun(blk, j, siz) { assert blk[j - 1]; }
    RunsBeforeFlat(blk, siz, s + 1, s + siz + 1);
  }

  lemma TailHasNoRun(blk: seq<bool>, siz: nat, s: nat)
    requires 1 <= siz && |blk| < s + siz
    ensures RunsBefore(blk, siz, s) == RunCount(blk, siz)
  {
    if s <= |blk| {
      RunsBeforeFlat(blk, siz, s, |blk|);
    } else {
      RunsBeforeFlat(blk, siz, |blk|, s);
    }
  }
}
