/** The undo log of one operation: bytes saved before each image write, each followed by a footer that
    holds the write's offset and length. `Undo` is its meaning and `Encode` its form in the log file.
    A record is appended whole or not at all. */
module UndoLog {
  import opened Options
  import opened Scale

  const FOOTER := 16
  const WORD_LIMIT := 0x1_0000_0000_0000_0000

  datatype Record = Record(offset: nat, saved: seq<Byte>)

  /** `v` in `n` bytes, least significant first. */
  function Number(v: nat, n: nat): (s: seq<Byte>)
    ensures |s| == n
  {
    if n == 0 then [] else [(v % 256) as Byte] + Number(v / 256, n - 1)
  }

  function ReadNumber(s: seq<Byte>): (v: nat) {
    if s == [] then 0 else s[0] as int + 256 * ReadNumber(s[1..])
  }

  function Limit(n: nat): (m: nat)
    ensures m > 0
  {
    if n == 0 then 1 else 256 * Limit(n - 1)
  }

  lemma {:induction false} NumberRead(v: nat, n: nat)
    requires v < Limit(n)
    ensures ReadNumber(Number(v, n)) == v
  {
    if n > 0 {
      assert v / 256 < Limit(n - 1);
      NumberRead(v / 256, n - 1);
      assert Number(v, n)[1..] == Number(v / 256, n - 1);
    }
  }

  lemma {:induction false} WordLimit()
    ensures Limit(8) == WORD_LIMIT
  {
    assert Limit(4) == 0x1_0000_0000;
    assert Limit(6) == 256 * 256 * Limit(4);
    assert Limit(8) == 256 * 256 * Limit(6);
  }

  ghost predicate Storable(r: Record) {
    r.offset < WORD_LIMIT && |r.saved| < WORD_LIMIT
  }

  ghost predicate AllStorable(rs: seq<Record>) {
    forall k | 0 <= k < |rs| :: Storable(rs[k])
  }

  function Footer(r: Record): (s: seq<Byte>)
    ensures |s| == FOOTER
  {
    Number(r.offset, 8) + Number(|r.saved|, 8)
  }

  lemma {:induction false} FooterRead(r: Record)
    requires Storable(r)
    ensures ReadNumber(Footer(r)[..8]) == r.offset && ReadNumber(Footer(r)[8..]) == |r.saved|
  {
    WordLimit();
    NumberRead(r.offset, 8);
    NumberRead(|r.saved|, 8);
    assert Footer(r)[..8] == Number(r.offset, 8) && Footer(r)[8..] == Number(|r.saved|, 8);
  }

  function Encode(rs: seq<Record>): seq<Byte> {
    if rs == [] then [] else
      var r := rs[|rs| - 1];
      Encode(rs[..|rs| - 1]) + r.saved + Footer(r)
  }

  /** Reading the log from its end: the footer gives the length of the record before it. */
  function Parse(log: seq<Byte>): (p: Option<seq<Record>>) {
    if log == [] then Some([])
    else if |log| < FOOTER then None
    else
      var footer := log[|log| - FOOTER..];
      var size := ReadNumber(footer[8..]);
      if |log| - FOOTER < size then None else
        var start := |log| - FOOTER - size;
        match Parse(log[..start])
        case None => None
        case Some(rs) => Some(rs + [Record(ReadNumber(footer[..8]), log[start..start + size])])
  }

  /** The three parts of the last record in the log. */
  lemma {:induction false} LastRecord(rs: seq<Record>, r: Record)
    ensures Encode(rs + [r]) == Encode(rs) + r.saved + Footer(r)
  {
    assert (rs + [r])[..|rs|] == rs;
  }

  lemma {:induction false} Slices(a: seq<Byte>, b: seq<Byte>, c: seq<Byte>)
    ensures var s := a + b + c;
      s[|s| - |c|..] == c && s[..|a|] == a && s[|a|..|a| + |b|] == b
  {
  }

  lemma {:induction false} ParseLast(front: seq<Byte>, r: Record)
    requires Storable(r)
    ensures Parse(front + r.saved + Footer(r))
      == match Parse(front) case None => None case Some(rs) => Some(rs + [r])
  {
    FooterRead(r);
    var log := front + r.saved + Footer(r);
    Slices(front, r.saved, Footer(r));
    assert log != [] && log[|log| - FOOTER..] == Footer(r);
    hide Footer, Number, ReadNumber;
  }

  /** Backward parsing recovers exactly the records that were written, in order. */
  lemma {:induction false} ParseEncode(rs: seq<Record>)
    requires AllStorable(rs)
    ensures Parse(Encode(rs)) == Some(rs)
  {
    if rs != [] {
      hide Parse, Footer;
      var n := |rs| - 1;
      assert AllStorable(rs[..n]);
      ParseEncode(rs[..n]);
      ParseLast(Encode(rs[..n]), rs[n]);
      assert rs[..n] + [rs[n]] == rs;
    }
  }

  // ----- what the log undoes -----

  ghost predicate Fits(rs: seq<Record>, size: nat) {
    forall k | 0 <= k < |rs| :: rs[k].offset + |rs[k].saved| <= size
  }

  /** The image after the records are written back, the last record first. */
  function Undo(rs: seq<Record>, d: seq<Byte>): (r: seq<Byte>)
    requires Fits(rs, |d|)
    ensures |r| == |d|
  {
    if rs == [] then d else
      var last := rs[|rs| - 1];
      Undo(rs[..|rs| - 1], Put(d, last.offset, last.saved))
  }

  /** `b` is `a` except that any bytes of the range may have changed: the outcome of a write of any
      kind, complete, torn or lost. */
  ghost predicate Within(a: seq<Byte>, b: seq<Byte>, offset: nat, size: nat) {
    |b| == |a| && forall i | 0 <= i < |a| && !(offset <= i < offset + size) :: b[i] == a[i]
  }

  /** The bytes are recorded before the write, so however the write ends the log still restores `was`. */
  lemma {:induction false} RecordedWrite(rs: seq<Record>, a: seq<Byte>, b: seq<Byte>, offset: nat, size: nat)
    requires Fits(rs, |a|) && offset + size <= |a| && Within(a, b, offset, size)
    ensures var r := Record(offset, a[offset..offset + size]);
      Fits(rs + [r], |b|) && Undo(rs + [r], b) == Undo(rs, a)
  {
    var r := Record(offset, a[offset..offset + size]);
    assert (rs + [r])[..|rs|] == rs;
    assert Put(b, offset, r.saved) == a;
  }

  /** Undoing a prefix of the log, one record further. */
  lemma {:induction false} UndoLast(rs: seq<Record>, n: nat, d: seq<Byte>)
    requires 0 < n <= |rs| && Fits(rs, |d|)
    ensures Undo(rs[..n], d) == Undo(rs[..n - 1], Put(d, rs[n - 1].offset, rs[n - 1].saved))
  {
    var front := rs[..n];
    assert front[..n - 1] == rs[..n - 1] && front[n - 1] == rs[n - 1] && |front| == n;
    assert Fits(front, |d|);
  }

  /** Images that agree everywhere but at `p`. */
  ghost predicate SameBut(a: seq<Byte>, b: seq<Byte>, p: nat) {
    |a| == |b| && forall i | 0 <= i < |a| && i != p :: a[i] == b[i]
  }

  lemma {:induction false} UndoSameBut(rs: seq<Record>, a: seq<Byte>, b: seq<Byte>, p: nat)
    requires SameBut(a, b, p) && Fits(rs, |a|)
    ensures SameBut(Undo(rs, a), Undo(rs, b), p)
  {
    if rs != [] {
      var last := rs[|rs| - 1];
      UndoSameBut(rs[..|rs| - 1], Put(a, last.offset, last.saved), Put(b, last.offset, last.saved), p);
    }
  }

  ghost predicate Covers(r: Record, p: nat) {
    r.offset <= p < r.offset + |r.saved|
  }

  /** Every record that covers byte `p` saved the value `v` for it. */
  ghost predicate Saves(rs: seq<Record>, p: nat, v: Byte) {
    forall k | 0 <= k < |rs| && Covers(rs[k], p) :: rs[k].saved[p - rs[k].offset] == v
  }

  ghost predicate AnyCovers(rs: seq<Record>, p: nat) {
    exists k :: 0 <= k < |rs| && Covers(rs[k], p)
  }

  /** Undo puts back the saved value of a byte, or leaves it alone when no record covers it. */
  lemma {:induction false} UndoByte(rs: seq<Record>, d: seq<Byte>, p: nat, v: Byte)
    requires Fits(rs, |d|) && p < |d| && Saves(rs, p, v)
    ensures Undo(rs, d)[p] == if AnyCovers(rs, p) then v else d[p]
  {
    if rs != [] {
      var n := |rs| - 1;
      var last := rs[n];
      var front := rs[..n];
      var e := Put(d, last.offset, last.saved);
      UndoByte(front, e, p, v);
      if AnyCovers(front, p) {
        var k :| 0 <= k < n && Covers(front[k], p);
        assert Covers(rs[k], p);
      }
      if AnyCovers(rs, p) {
        var k :| 0 <= k < |rs| && Covers(rs[k], p);
        assert k < n ==> Covers(front[k], p);
      }
    }
  }
}
