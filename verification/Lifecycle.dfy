/** Writable images: recorded writes, the clean/dirty state byte, one-shot mutations and write sessions.
    Every backend write and fsync may fail; a failed write may have changed any part of its range. */
module Lifecycle {
  import opened Scale
  import opened UndoLog

  const CLEAN: Byte := 1
  const DIRTY: Byte := 2
  const CORRUPTED: Byte := 3

  const EIO := -5
  const ENOMEM := -12
  const EINVAL := -22
  const EUCLEAN := -117
  const IMAGE_LIMIT := 0x8000_0000_0000_0000

  /** How the environment answers: a failed write leaves the bytes that landed, in any order. */
  datatype Fault = Fine | Fault(error: int, landed: seq<bool>)

  /** The error number of a fault. */
  function Code(f: Fault): (rc: int)
    ensures rc < 0 <==> f.Fault?
    ensures rc <= 0
  {
    match f
    case Fine => 0
    case Fault(e, _) => if e < 0 then e else -1
  }

  ghost predicate LandedAt(landed: seq<bool>, i: int) {
    0 <= i < |landed| && landed[i]
  }

  /** A write of which only some bytes landed. */
  function Landing(d: seq<Byte>, offset: nat, data: seq<Byte>, landed: seq<bool>): (r: seq<Byte>)
    requires offset + |data| <= |d|
    ensures Torn(d, r, offset, data)
    ensures forall i | 0 <= i < |d| ::
      r[i] == if offset <= i < offset + |data| && LandedAt(landed, i - offset) then data[i - offset] else d[i]
    ensures landed == [] ==> r == d
  {
    seq(|d|, i requires 0 <= i < |d| =>
      if offset <= i < offset + |data| && i - offset < |landed| && landed[i - offset] then data[i - offset] else d[i])
  }

  /** What a write makes of the image under a given fault. */
  function Outcome(d: seq<Byte>, offset: nat, data: seq<Byte>, f: Fault): (r: seq<Byte>)
    requires offset + |data| <= |d|
    ensures Torn(d, r, offset, data)
  {
    match f
    case Fine => Put(d, offset, data)
    case Fault(_, landed) => Landing(d, offset, data, landed)
  }

  /** A write that an operation asks for. */
  datatype Patch = Patch(offset: int, data: seq<Byte>)

  /** A write that reached the backend: what the image held, and which bytes no fsync covered yet. */
  datatype Attempt = Attempt(offset: nat, data: seq<Byte>, before: seq<Byte>, stale: set<nat>)

  ghost function Range(offset: nat, size: nat): set<nat> {
    if size == 0 then {} else Range(offset, size - 1) + {offset + size - 1}
  }

  ghost predicate Reaches(offset: int, data: seq<Byte>, p: nat) {
    offset <= p < offset + |data|
  }

  ghost predicate WritesClean(t: Attempt, p: nat) {
    Reaches(t.offset, t.data, p) && t.data[p - t.offset] == CLEAN
  }

  /** The clean byte goes out alone, every other byte is on disk, and the image is `a` or `b`. */
  ghost predicate SafeAttempt(t: Attempt, p: nat, a: seq<Byte>, b: seq<Byte>) {
    |t.data| == 1 && t.stale <= {p} && (SameBut(t.before, a, p) || SameBut(t.before, b, p))
  }

  /** Since `first`, the clean byte was only ever written over the synced images `a` and `b`. */
  ghost predicate Guarded(trace: seq<Attempt>, first: nat, p: nat, a: seq<Byte>, b: seq<Byte>) {
    forall i | first <= i < |trace| && WritesClean(trace[i], p) :: SafeAttempt(trace[i], p, a, b)
  }

  /** Since `first`, nothing tried to write the clean byte. */
  ghost predicate Quiet(trace: seq<Attempt>, first: nat, p: nat) {
    forall i | first <= i < |trace| :: !WritesClean(trace[i], p)
  }

  ghost predicate InRange(w: Patch, size: nat) {
    0 <= w.offset && w.offset + |w.data| <= size
  }

  /** The image after an operation's writes. */
  ghost function Apply(ws: seq<Patch>, d: seq<Byte>): (r: seq<Byte>)
    ensures |r| == |d|
  {
    if ws == [] then d else
      var e := Apply(ws[..|ws| - 1], d);
      var w := ws[|ws| - 1];
      if InRange(w, |d|) then Put(e, w.offset, w.data) else e
  }

  /** Every write is inside the image and writes something. */
  ghost predicate Proper(ws: seq<Patch>, size: nat) {
    forall k | 0 <= k < |ws| :: InRange(ws[k], size) && ws[k].data != []
  }

  ghost predicate Inside(ws: seq<Patch>, size: nat) {
    forall k | 0 <= k < |ws| :: InRange(ws[k], size)
  }

  /** What an operation comes to when the environment does not fail. */
  ghost function Asked(ws: seq<Patch>, wanted: int, size: nat): int {
    if wanted < 0 then wanted else if Inside(ws, size) then 0 else EINVAL
  }

  lemma {:induction false} InsideNext(ws: seq<Patch>, k: nat, size: nat)
    requires k < |ws|
    ensures Inside(ws[..k + 1], size) <==> Inside(ws[..k], size) && InRange(ws[k], size)
  {
    assert forall j | 0 <= j < k :: ws[..k + 1][j] == ws[..k][j];
    assert ws[..k + 1][k] == ws[k];
  }

  /** Operations rewrite the superblock with the state byte they read from it. */
  ghost predicate Tame(ws: seq<Patch>, p: nat, v: Byte) {
    forall k | 0 <= k < |ws| && Reaches(ws[k].offset, ws[k].data, p) :: ws[k].data[p - ws[k].offset] == v
  }

  /** The log file holds `recs`, `end` lies after `kept` of them, and they bring image `d` back to `was`. */
  ghost predicate Logged(p: nat, d: seq<Byte>, v: Byte, log: seq<Byte>, end: nat, recs: seq<Record>, kept: nat,
      was: seq<Byte>)
  {
    && p < |d| < IMAGE_LIMIT
    && AllStorable(recs) && Fits(recs, |d|) && kept <= |recs|
    && log == Encode(recs) && end <= |log| && log[..end] == Encode(recs[..kept])
    && Saves(recs, p, v)
    && Undo(recs, d) == was && Undo(recs[..kept], d) == was
  }

  /** Saving bytes of the image adds a record that changes nothing yet. */
  lemma {:induction false} PushRecord(p: nat, d: seq<Byte>, v: Byte, log: seq<Byte>, end: nat, recs: seq<Record>, kept: nat,
      was: seq<Byte>, r: Record, more: seq<Byte>)
    requires Logged(p, d, v, log, end, recs, kept, was) && d[p] == v
    requires r.offset + |r.saved| <= |d| && r.saved == d[r.offset..r.offset + |r.saved|]
    requires more == log + r.saved + Footer(r)
    ensures Logged(p, d, v, more, end, recs + [r], kept, was)
    ensures Logged(p, d, v, more, |more|, recs + [r], |recs| + 1, was)
  {
    hide Undo, Encode;
    var rs := recs + [r];
    LastRecord(recs, r);
    RecordedWrite(recs, d, d, r.offset, |r.saved|);
    assert rs[..|recs| + 1] == rs && rs[..kept] == recs[..kept];
    assert more[..|more|] == more && more[..end] == log[..end];
  }

  lemma {:induction false} UndoAfter(d: seq<Byte>, e: seq<Byte>, recs: seq<Record>, was: seq<Byte>, offset: nat,
      data: seq<Byte>)
    requires Fits(recs, |d|) && Undo(recs, d) == was && Torn(d, e, offset, data) && offset + |data| <= |d|
    requires recs != [] && recs[|recs| - 1] == Record(offset, d[offset..offset + |data|])
    ensures Undo(recs, e) == was
  {
    assert Put(e, offset, d[offset..offset + |data|]) == d;
    assert Put(d, offset, d[offset..offset + |data|]) == d;
  }

  /** However a recorded write ends, the log restores the same image. */
  lemma {:induction false} AfterWrite(p: nat, d: seq<Byte>, e: seq<Byte>, v: Byte, log: seq<Byte>, end: nat,
      recs: seq<Record>, kept: nat, was: seq<Byte>, offset: nat, data: seq<Byte>)
    requires Logged(p, d, v, log, end, recs, kept, was) && d[p] == v && Torn(d, e, offset, data)
    requires offset + |data| <= |d| && (Reaches(offset, data, p) ==> data[p - offset] == v)
    requires data == [] ||
      (0 < |recs| == kept && recs[kept - 1] == Record(offset, d[offset..offset + |data|]))
    ensures Logged(p, e, v, log, end, recs, kept, was) && e[p] == v
  {
    if data == [] {
      assert e == d;
    } else {
      UndoAfter(d, e, recs, was, offset, data);
      assert e[p] == v;
      hide Torn, Encode, AllStorable, Undo, Reaches, Put;
      assert recs[..kept] == recs;
    }
  }

  /** Part of the log is written back: `n` records before `end` are left, and they lead to `target`. The
      byte `p` is still the one of `first` or the saved one. */
  ghost predicate Replaying(p: nat, v: Byte, rs: seq<Record>, log: seq<Byte>, end: nat, n: nat, d: seq<Byte>,
      first: seq<Byte>, target: seq<Byte>)
  {
    && n <= |rs| && end <= |log| && log[..end] == Encode(rs[..n])
    && AllStorable(rs) && Saves(rs, p, v) && Fits(rs, |d|)
    && Undo(rs[..n], d) == target
    && Restored(p, v, rs, d, first)
  }

  ghost predicate Restored(p: nat, v: Byte, rs: seq<Record>, d: seq<Byte>, first: seq<Byte>) {
    && |d| == |first| && p < |d|
    && (d[p] == first[p] || (d[p] == v && AnyCovers(rs, p)))
  }

  lemma {:induction false} ReplayStart(p: nat, v: Byte, recs: seq<Record>, log: seq<Byte>, end: nat, kept: nat, d: seq<Byte>)
    requires p < |d| && AllStorable(recs) && Fits(recs, |d|) && kept <= |recs| && Saves(recs, p, v)
    requires end <= |log| && log[..end] == Encode(recs[..kept])
    ensures Replaying(p, v, recs[..kept], log, end, kept, d, d, Undo(recs[..kept], d))
  {
    hide Encode, Undo;
    assert recs[..kept][..kept] == recs[..kept];
  }

  /** Writing the record back, whole or in part, moves the state byte nowhere else. */
  lemma {:induction false} ReplayTorn(p: nat, v: Byte, rs: seq<Record>, k: nat, d: seq<Byte>, first: seq<Byte>, e: seq<Byte>)
    requires k < |rs| && Restored(p, v, rs, d, first) && Saves(rs, p, v) && Torn(d, e, rs[k].offset, rs[k].saved)
    ensures Restored(p, v, rs, e, first)
  {
    assert Covers(rs[k], p) ==> AnyCovers(rs, p);
  }

  lemma {:induction false} ReplayStep(p: nat, v: Byte, rs: seq<Record>, log: seq<Byte>, end: nat, n: nat, d: seq<Byte>,
      first: seq<Byte>, target: seq<Byte>, e: seq<Byte>, start: nat)
    requires 0 < n && Replaying(p, v, rs, log, end, n, d, first, target) && start <= end
    requires log[..start] == Encode(rs[..n - 1]) && e == Put(d, rs[n - 1].offset, rs[n - 1].saved)
    requires Restored(p, v, rs, e, first)
    ensures Replaying(p, v, rs, log, start, n - 1, e, first, target)
  {
    UndoLast(rs, n, d);
  }

  lemma {:induction false} EncodeLength(rs: seq<Record>, n: nat)
    requires n <= |rs|
    ensures n > 0 ==> |Encode(rs[..n])| >= FOOTER
  {
    if n > 0 {
      assert |Footer(rs[..n][n - 1])| == FOOTER;
    }
  }

  lemma {:induction false} NothingLeft(rs: seq<Record>, n: nat, d: seq<Byte>)
    requires n <= |rs| && Encode(rs[..n]) == [] && Fits(rs, |d|)
    ensures Undo(rs[..n], d) == d && n == 0
  {
    EncodeLength(rs, n);
  }

  /** How far a failed replay got: `done` records were written back whole, the last one first, and of the
      next one the bytes in `landed`. */
  datatype Replay = Replay(done: nat, landed: seq<bool>)

  /** The image a replay leaves. */
  ghost function PartUndo(rs: seq<Record>, r: Replay, d: seq<Byte>): (e: seq<Byte>)
    requires Fits(rs, |d|) && r.done <= |rs|
    ensures |e| == |d|
  {
    var k := |rs| - r.done;
    assert Fits(rs[k..], |d|);
    var e := Undo(rs[k..], d);
    if k == 0 then e else Landing(e, rs[k - 1].offset, rs[k - 1].saved, r.landed)
  }

  /** The replay wrote the saved byte `p` back. */
  ghost predicate PutBack(rs: seq<Record>, r: Replay, p: nat)
    requires r.done <= |rs|
  {
    var k := |rs| - r.done;
    AnyCovers(rs[k..], p) || (k > 0 && Covers(rs[k - 1], p) && LandedAt(r.landed, p - rs[k - 1].offset))
  }

  /** The replay turned `d` into `e`; every record that covers byte `p` saved `v` for it. */
  ghost predicate Replayed(rs: seq<Record>, r: Replay, d: seq<Byte>, e: seq<Byte>, p: nat, v: Byte) {
    && Fits(rs, |d|) && r.done <= |rs| && p < |d| && e == PartUndo(rs, r, d)
    && e[p] == if PutBack(rs, r, p) then v else d[p]
  }

  /** What becomes of the byte `p`, wherever the replay stops. */
  lemma {:induction false} PartUndoByte(rs: seq<Record>, r: Replay, d: seq<Byte>, p: nat, v: Byte)
    requires Fits(rs, |d|) && r.done <= |rs| && p < |d| && Saves(rs, p, v)
    ensures Replayed(rs, r, d, PartUndo(rs, r, d), p, v)
  {
    var k := |rs| - r.done;
    assert Fits(rs[k..], |d|) && Saves(rs[k..], p, v);
    UndoByte(rs[k..], d, p, v);
    hide Undo, AnyCovers;
  }

  ghost predicate UndoneFrom(rs: seq<Record>, n: nat, first: seq<Byte>, d: seq<Byte>) {
    n <= |rs| && Fits(rs[n..], |first|) && d == Undo(rs[n..], first)
  }

  lemma {:induction false} UndoNothing(rs: seq<Record>, d: seq<Byte>)
    ensures UndoneFrom(rs, |rs|, d, d)
  {
    assert rs[|rs|..] == [];
  }

  lemma {:induction false} UndoConcat(a: seq<Record>, b: seq<Record>, d: seq<Byte>)
    requires Fits(a, |d|) && Fits(b, |d|) && Fits(a + b, |d|)
    ensures Undo(a + b, d) == Undo(a, Undo(b, d))
  {
    if b == [] {
      assert a + b == a;
    } else {
      var last := b[|b| - 1];
      assert (a + b)[..|a + b| - 1] == a + b[..|b| - 1];
      UndoConcat(a, b[..|b| - 1], Put(d, last.offset, last.saved));
    }
  }

  lemma {:induction false} UndoneNext(rs: seq<Record>, n: nat, first: seq<Byte>, d: seq<Byte>, e: seq<Byte>)
    requires 0 < n && UndoneFrom(rs, n, first, d) && rs[n - 1].offset + |rs[n - 1].saved| <= |d|
    requires e == Put(d, rs[n - 1].offset, rs[n - 1].saved)
    ensures UndoneFrom(rs, n - 1, first, e)
  {
    assert [rs[n - 1]] + rs[n..] == rs[n - 1..];
    UndoConcat([rs[n - 1]], rs[n..], first);
    assert [rs[n - 1]][..0] == [];
  }

  lemma {:induction false} StoppedAt(p: nat, v: Byte, rs: seq<Record>, n: nat, first: seq<Byte>, d: seq<Byte>, e: seq<Byte>,
      landed: seq<bool>)
    requires UndoneFrom(rs, n, first, d) && Saves(rs, p, v) && Fits(rs, |first|) && p < |first|
    requires (e == d && landed == []) || (0 < n && e == Landing(d, rs[n - 1].offset, rs[n - 1].saved, landed))
    ensures Replayed(rs, Replay(|rs| - n, landed), first, e, p, v)
    ensures |e| == |first| && (e[p] == first[p] || e[p] == v)
  {
    PartUndoByte(rs, Replay(|rs| - n, landed), first, p, v);
    hide Undo, PutBack;
  }

  /** What the replay knows at any time; at the start of the log it is done. */
  lemma {:induction false} ReplayMeans(p: nat, v: Byte, rs: seq<Record>, log: seq<Byte>, end: nat, n: nat, d: seq<Byte>,
      first: seq<Byte>, target: seq<Byte>)
    requires Replaying(p, v, rs, log, end, n, d, first, target)
    ensures |d| == |first| && Restored(p, v, rs, d, first)
    ensures end == 0 ==> d == target && n == 0
  {
    if end == 0 {
      assert log[..end] == [];
      NothingLeft(rs, n, d);
    }
  }

  /** The two numbers of the footer that ends at `end`, and the bytes before it. */
  function OffsetAt(log: seq<Byte>, end: nat): nat
    requires FOOTER <= end <= |log|
  {
    ReadNumber(log[end - FOOTER..end][..8])
  }

  function SizeAt(log: seq<Byte>, end: nat): nat
    requires FOOTER <= end <= |log|
  {
    ReadNumber(log[end - FOOTER..end][8..])
  }

  function SavedAt(log: seq<Byte>, start: nat, size: nat): (s: seq<Byte>)
    requires start + size <= |log|
    ensures |s| == size
  {
    log[start..start + size]
  }

  /** The record before `end`, as its footer describes it. */
  lemma {:induction false} ReplayHead(p: nat, v: Byte, rs: seq<Record>, log: seq<Byte>, end: nat, n: nat, d: seq<Byte>,
      first: seq<Byte>, target: seq<Byte>)
    requires Replaying(p, v, rs, log, end, n, d, first, target) && 0 < end
    ensures end <= |log| && 0 < n <= |rs| && FOOTER + |rs[n - 1].saved| <= end
    ensures OffsetAt(log, end) == rs[n - 1].offset && SizeAt(log, end) == |rs[n - 1].saved|
    ensures var start := end - (FOOTER + |rs[n - 1].saved|);
      SavedAt(log, start, |rs[n - 1].saved|) == rs[n - 1].saved && log[..start] == Encode(rs[..n - 1])
    ensures rs[n - 1].offset + |rs[n - 1].saved| <= |d| == |first| && Restored(p, v, rs, d, first) && Saves(rs, p, v)
    ensures Covers(rs[n - 1], p) ==> rs[n - 1].saved[p - rs[n - 1].offset] == v
  {
    StoredRecord(log, end, rs, n);
  }

  lemma {:induction false} QuietStep(t: seq<Attempt>, u: seq<Attempt>, first: nat, p: nat)
    requires Quiet(t, first, p) && |u| == |t| + 1 && t <= u && !WritesClean(u[|t|], p)
    ensures Quiet(u, first, p)
  {
    forall i | first <= i < |u|
      ensures !WritesClean(u[i], p)
    {
      if i < |t| {
        assert u[i] == t[i];
      }
    }
  }

  lemma {:induction false} NoAttempts(t: seq<Attempt>, p: nat, a: seq<Byte>)
    ensures Guarded(t, |t|, p, a, a)
  {
  }

  /** One more attempt, on the state byte alone. */
  lemma {:induction false} GuardedStep(t: seq<Attempt>, u: seq<Attempt>, first: nat, p: nat, a: seq<Byte>, value: Byte,
      d: seq<Byte>, stale: set<nat>)
    requires Guarded(t, first, p, a, a) && (u == t || u == t + [Attempt(p, [value], d, stale)])
    requires value == CLEAN ==> stale <= {p} && SameBut(d, a, p)
    ensures Guarded(u, first, p, a, a)
  {
    forall i | first <= i < |u| && WritesClean(u[i], p)
      ensures SafeAttempt(u[i], p, a, a)
    {
      assert i < |t| ==> u[i] == t[i];
    }
  }

  lemma {:induction false} QuietYet(t: seq<Attempt>, p: nat)
    ensures Quiet(t, |t|, p)
  {
  }

  lemma {:induction false} QuietJoin(t: seq<Attempt>, u: seq<Attempt>, first: nat, p: nat)
    requires Quiet(t, first, p) && t <= u && Quiet(u, |t|, p)
    ensures Quiet(u, first, p)
  {
    forall i | first <= i < |u| ensures !WritesClean(u[i], p) {
      assert i < |t| ==> u[i] == t[i];
    }
  }

  lemma {:induction false} DirtyIsQuiet(t: seq<Attempt>, u: seq<Attempt>, p: nat, value: Byte, d: seq<Byte>, stale: set<nat>)
    requires value != CLEAN && (u == t || u == t + [Attempt(p, [value], d, stale)])
    ensures Quiet(u, |t|, p)
  {
  }

  /** A state byte that is written, and one that is lost. */
  lemma {:induction false} StateOutcome(d: seq<Byte>, p: nat, value: Byte, f: Fault)
    requires p < |d|
    ensures f.Fine? ==> Outcome(d, p, [value], f) == d[p := value]
    ensures f.Fault? && f.landed == [] ==> Outcome(d, p, [value], f) == d
  {
  }

  /** Three stretches of the trace: guarded by `a`, without a clean byte, and guarded by `b`. */
  lemma {:induction false} GuardedInParts(t1: seq<Attempt>, t2: seq<Attempt>, t3: seq<Attempt>, first: nat, p: nat,
      a: seq<Byte>, b: seq<Byte>)
    requires Guarded(t1, first, p, a, a) && t1 <= t2 && Quiet(t2, |t1|, p) && t2 <= t3 && Guarded(t3, |t2|, p, b, b)
    ensures Guarded(t3, first, p, a, b)
  {
    forall i | first <= i < |t3| && WritesClean(t3[i], p)
      ensures SafeAttempt(t3[i], p, a, b)
    {
      assert i < |t2| ==> t3[i] == t2[i];
      assert i < |t1| ==> t2[i] == t1[i];
    }
  }

  class Image {
    const pos: nat            // offset of the state byte
    const faults: seq<Fault>  // the environment: any sequence of faults, then none
    var tick: nat             // how often the environment has been asked
    var bytes: seq<Byte>
    var state: Byte           // the decoded state byte
    var restoreClean: bool
    var active: bool          // an operation's transaction is open
    var log: seq<Byte>
    var end: nat
    ghost var recs: seq<Record>   // the records in `log`
    ghost var kept: nat           // how many of them lie before `end`
    ghost var stale: set<nat>     // bytes written since the last successful fsync
    ghost var trace: seq<Attempt>

    /** A file as found on disk. */
    constructor (bytes: seq<Byte>, pos: nat, faults: seq<Fault>)
      requires pos < |bytes| < IMAGE_LIMIT
      ensures this.bytes == bytes && this.pos == pos && Idle() && stale == {} && trace == []
      ensures this.faults == faults && tick == 0
    {
      this.faults, tick := faults, 0;
      this.bytes, this.pos, state, restoreClean, active := bytes, pos, bytes[pos], false, false;
      log, end, recs, kept, stale, trace := [], 0, [], 0, {}, [];
    }

    /** No transaction, and the decoded state is the stored one. */
    ghost predicate Idle()
      reads this
    {
      Sized() && !active && state == bytes[pos]
    }

    ghost predicate Sized()
      reads this
    {
      pos < |bytes| < IMAGE_LIMIT
    }

    /** The log brings the image back to `was`. */
    ghost predicate Restores(was: seq<Byte>)
      reads this
    {
      active && Logged(pos, bytes, state, log, end, recs, kept, was) && bytes[pos] == state
    }

    ghost predicate LogReadable()
      reads this
    {
      && AllStorable(recs) && Fits(recs, |bytes|) && kept <= |recs|
      && end <= |log| && log[..end] == Encode(recs[..kept]) && Saves(recs, pos, state)
    }

    ghost predicate SameLog(log: seq<Byte>, end: nat, recs: seq<Record>, kept: nat)
      reads this
    {
      this.log == log && this.end == end && this.recs == recs && this.kept == kept
    }

    // ----- the backend -----

    /** The answer to the `i`-th question. */
    function At(i: nat): Fault {
      if i < |faults| then faults[i] else Fine
    }

    method Ask() returns (f: Fault)
      modifies this`tick
      ensures f == At(old(tick)) && tick == old(tick) + 1
    {
      f := At(tick);
      tick := tick + 1;
    }

    ghost predicate AllFine(from: nat, to: nat) {
      forall i | from <= i < to :: At(i).Fine?
    }

    /** The environment does not fail any more. */
    ghost predicate NoFaults(from: nat) {
      forall i | from <= i :: At(i).Fine?
    }

    lemma FineAt(from: nat, i: nat)
      requires from <= i
      ensures NoFaults(from) ==> At(i).Fine? && NoFaults(i + 1)
    {
    }

    method BackendWrite(offset: nat, data: seq<Byte>) returns (rc: int)
      requires offset + |data| <= |bytes|
      modifies this`bytes, this`stale, this`trace, this`tick
      ensures rc == Code(At(old(tick))) && bytes == Outcome(old(bytes), offset, data, At(old(tick))) && tick == old(tick) + 1
      ensures rc == 0 ==> bytes == Put(old(bytes), offset, data)
      ensures stale == old(stale) + Range(offset, |data|)
      ensures trace == old(trace) + [Attempt(offset, data, old(bytes), old(stale))]
    {
      stale, trace := stale + Range(offset, |data|), trace + [Attempt(offset, data, bytes, stale)];
      var f := Ask();
      bytes := Outcome(bytes, offset, data, f);
      rc := Code(f);
    }

    method BackendSync() returns (rc: int)
      modifies this`stale, this`tick
      ensures rc == Code(At(old(tick))) && tick == old(tick) + 1
      ensures stale == if rc == 0 then {} else old(stale)
    {
      var f := Ask();
      if f.Fine? {
        stale := {};
      }
      rc := Code(f);
    }

    // ----- recorded writes -----

    /** `nextufs__transaction_record`. */
    method RecordRange(size: nat, offset: nat, ghost was: seq<Byte>) returns (rc: int)
      requires offset + size <= |bytes| && (active ==> Restores(was))
      modifies this`log, this`end, this`recs, this`kept, this`tick
      ensures old(tick) <= tick && (NoFaults(old(tick)) ==> rc == 0)
      ensures rc <= 0 && (active ==> Restores(was))
      ensures !active ==> rc == 0 && tick == old(tick) && SameLog(old(log), old(end), old(recs), old(kept))
      ensures active && size > 0 && rc == 0 ==>
        0 < |recs| == kept && recs[kept - 1] == Record(offset, bytes[offset..offset + size]) && end > 0
      ensures active && size > 0 && AllFine(old(tick), old(tick) + 2) ==> rc == 0 && tick == old(tick) + 2
    {
      hide Logged, Number;
      if !active || size == 0 {
        return 0;
      }
      var f := Ask();          // no memory, an unreadable range or a full log
      if f.Fault? {
        return Code(f);
      }
      var saved := bytes[offset..offset + size];
      ghost var r := Record(offset, saved);
      var more := log + saved + (Number(offset, 8) + Number(size, 8));
      assert more == log + r.saved + Footer(r);
      PushRecord(pos, bytes, state, log, end, recs, kept, was, r, more);
      log, recs := more, recs + [r];
      f := Ask();              // the position of the log cannot be told
      if f.Fault? {
        return Code(f);
      }
      end, kept := |log|, |recs|;
      rc := 0;
    }

    /** `nextufs__write_exact`. */
    method WriteExact(offset: int, data: seq<Byte>, ghost was: seq<Byte>) returns (rc: int)
      requires active ==> Restores(was)
      requires active && Reaches(offset, data, pos) ==> data[pos - offset] == state
      modifies this`bytes, this`stale, this`trace, this`log, this`end, this`recs, this`kept, this`tick
      ensures old(tick) <= tick
      ensures NoFaults(old(tick)) ==> rc == if InRange(Patch(offset, data), |old(bytes)|) then 0 else EINVAL
      ensures rc <= 0 && (active ==> Restores(was)) && (!active ==> SameLog(old(log), old(end), old(recs), old(kept)))
      ensures !active && InRange(Patch(offset, data), |old(bytes)|) ==>
        && rc == Code(At(old(tick))) && tick == old(tick) + 1
        && bytes == Outcome(old(bytes), offset, data, At(old(tick)))
      ensures active && InRange(Patch(offset, data), |old(bytes)|) && data != [] && AllFine(old(tick), old(tick) + 3) ==>
        rc == 0 && tick == old(tick) + 3 && end > 0
      ensures rc == 0 ==> 0 <= offset && offset + |data| <= |old(bytes)| && bytes == Put(old(bytes), offset, data)
      ensures
        || (rc < 0 && trace == old(trace) && bytes == old(bytes) && stale == old(stale))
        || (0 <= offset && offset + |data| <= |old(bytes)|
            && Torn(old(bytes), bytes, offset, data) && stale == old(stale) + Range(offset, |data|)
            && trace == old(trace) + [Attempt(offset, data, old(bytes), old(stale))])
    {
      hide Logged, Torn, Range, Outcome;
      if offset < 0 || offset > |bytes| || |data| > |bytes| - offset {
        return EINVAL;
      }
      ghost var d := bytes;
      rc := RecordRange(|data|, offset, was);
      if rc < 0 {
        return;
      }
      rc := BackendWrite(offset, data);
      if active {
        AfterWrite(pos, d, bytes, state, log, end, recs, kept, was, offset, data);
      }
    }

    // ----- the operation's transaction -----

    /** `nextufs__transaction_begin`. */
    method TransactionBegin() returns (rc: int)
      requires Idle()
      modifies this`log, this`end, this`recs, this`kept, this`active, this`tick
      ensures rc == Code(At(old(tick))) && tick == old(tick) + 1 && active == (rc == 0)
      ensures rc == 0 ==> Restores(bytes)
    {
      var f := Ask();          // no memory or no temporary file
      if f.Fault? {
        return Code(f);
      }
      log, end, recs, kept, active := [], 0, [], 0, true;
      rc := 0;
    }

    /** `nextufs__transaction_end`. The image may differ from what the log was kept for at the state byte. */
    method TransactionEnd(status: int, ghost was: seq<Byte>) returns (rc: int, ghost stuck: bool, ghost replay: Replay)
      requires Sized() && |was| == |bytes|
      requires active && status < 0 ==> LogReadable() && SameBut(Undo(recs[..kept], bytes), was, pos)
      modifies this`bytes, this`stale, this`trace, this`end, this`active, this`tick
      ensures old(tick) <= tick && (NoFaults(old(tick)) ==> !stuck)
      ensures !active && |bytes| == |old(bytes)|
      ensures !old(active) || status >= 0 ==>
        rc == status && !stuck && bytes == old(bytes) && stale == old(stale) && trace == old(trace) && tick == old(tick)
      ensures stuck ==> rc == EUCLEAN
      ensures old(active) && status < 0 && !stuck ==>
        rc == status && stale == {} && bytes == Undo(old(recs[..kept]), old(bytes)) && SameBut(bytes, was, pos)
      ensures old(trace) <= trace
      ensures state != CLEAN ==> Quiet(trace, |old(trace)|, pos)
      ensures bytes[pos] == old(bytes[pos]) || bytes[pos] == state
      ensures old(active) && status < 0 ==> Replayed(old(recs[..kept]), replay, old(bytes), bytes, pos, state)
      ensures old(active) && status < 0 && old(end) > 0 && At(old(tick)).Fault? ==> stuck && bytes == old(bytes)
    {
      hide Replayed, Quiet, Undo, Encode, AllStorable, Saves, Code;
      QuietYet(trace, pos);
      replay := Replay(0, []);
      if !active {
        return status, false, replay;
      }
      active := false;
      var failed := false;
      if status < 0 {
        failed, replay := WriteBack();
        var synced := BackendSync();
        failed := failed || synced < 0;
      }
      rc, stuck := if failed then EUCLEAN else status, failed;
    }

    /** One record, read back from its footer and written over the image. */
    method WriteBackLast(ghost rs: seq<Record>, ghost n: nat, ghost first: seq<Byte>, ghost target: seq<Byte>)
      returns (ok: bool, ghost landed: seq<bool>)
      requires end > 0 && pos < |bytes| && Replaying(pos, state, rs, log, end, n, bytes, first, target)
      modifies this`bytes, this`stale, this`trace, this`end, this`tick
      ensures old(tick) <= tick && (NoFaults(old(tick)) ==> ok)
      ensures |bytes| == |old(bytes)| && end < old(end)
      ensures 0 < n <= |rs| && rs[n - 1].offset + |rs[n - 1].saved| <= |bytes|
      ensures ok ==> bytes == Put(old(bytes), rs[n - 1].offset, rs[n - 1].saved)
      ensures !ok ==> bytes == Landing(old(bytes), rs[n - 1].offset, rs[n - 1].saved, landed)
      ensures ok ==> 0 < n && Replaying(pos, state, rs, log, end, n - 1, bytes, first, target)
      ensures trace == old(trace) || (|trace| == |old(trace)| + 1 && old(trace) <= trace)
      ensures state != CLEAN && trace != old(trace) ==> !WritesClean(trace[|old(trace)|], pos)
    {
      hide Replaying, Torn, Range, Encode, OffsetAt, SizeAt, SavedAt, Undo, AllStorable, Saves, Fits, Restored, Put, Landing;
      ghost var d := bytes;
      ReplayHead(pos, state, rs, log, end, n, d, first, target);
      var offset, size := OffsetAt(log, end), SizeAt(log, end);
      ghost var last := end;
      end := end - (FOOTER + size);
      landed := [];
      var f := Ask();          // no memory, or the saved bytes cannot be read
      if f.Fault? {
        return false, landed;
      }
      landed := if At(tick).Fault? then At(tick).landed else [];
      var rc := BackendWrite(offset, SavedAt(log, end, size));
      ReplayTorn(pos, state, rs, n - 1, d, first, bytes);
      ok := rc == 0;
      if ok {
        ReplayStep(pos, state, rs, log, last, n, d, first, target, bytes, end);
      }
    }

    lemma ReplayBegins()
      requires Sized() && LogReadable()
      ensures pos < |bytes| && kept <= |recs| && Quiet(trace, |trace|, pos) && Fits(recs[..kept], |bytes|)
      ensures Replaying(pos, state, recs[..kept], log, end, kept, bytes, bytes, Undo(recs[..kept], bytes))
      ensures UndoneFrom(recs[..kept], kept, bytes, bytes) && Saves(recs[..kept], pos, state)
    {
      ReplayStart(pos, state, recs, log, end, kept, bytes);
      UndoNothing(recs[..kept], bytes);
    }

    /** The loop that replays the log from its end. */
    method WriteBack() returns (failed: bool, ghost replay: Replay)
      requires Sized() && LogReadable()
      modifies this`bytes, this`stale, this`trace, this`end, this`tick
      ensures old(tick) <= tick && (NoFaults(old(tick)) ==> !failed)
      ensures |bytes| == |old(bytes)|
      ensures !failed ==> bytes == Undo(recs[..kept], old(bytes))
      ensures Replayed(recs[..kept], replay, old(bytes), bytes, pos, state)
      ensures old(trace) <= trace
      ensures state != CLEAN ==> Quiet(trace, |old(trace)|, pos)
      ensures bytes[pos] == old(bytes[pos]) || bytes[pos] == state
      ensures old(end) > 0 && At(old(tick)).Fault? ==> failed && bytes == old(bytes)
    {
      hide *;
      ReplayBegins();
      ghost var rs, n: nat, first, target := recs[..kept], kept, bytes, Undo(recs[..kept], bytes);
      while end > 0
        invariant |bytes| == |first| && Replaying(pos, state, rs, log, end, n, bytes, first, target)
        invariant n <= |rs| && UndoneFrom(rs, n, first, bytes) && (end == old(end) ==> tick == old(tick) && bytes == old(bytes))
        invariant old(tick) <= tick
        invariant end <= old(end) && (old(end) > 0 && At(old(tick)).Fault? ==> end == old(end))
        invariant old(trace) <= trace && (state != CLEAN ==> Quiet(trace, |old(trace)|, pos))
        decreases end
      {
        FineAt(old(tick), tick);
        var f := Ask();        // the footer cannot be read
        if f.Fault? {
          StoppedAt(pos, state, rs, n, first, bytes, bytes, []);
          return true, Replay(|rs| - n, []);
        }
        ghost var t, d := trace, bytes;
        var ok;
        ghost var landed;
        ok, landed := WriteBackLast(rs, n, first, target);
        if state != CLEAN && trace != t {
          QuietStep(t, trace, |old(trace)|, pos);
        }
        if !ok {
          StoppedAt(pos, state, rs, n, first, d, bytes, landed);
          return true, Replay(|rs| - n, landed);
        }
        UndoneNext(rs, n, first, d, bytes);
        n := n - 1;
      }
      ReplayMeans(pos, state, rs, log, end, n, bytes, first, target);
      StoppedAt(pos, state, rs, n, first, bytes, bytes, []);
      return false, Replay(|rs| - n, []);
    }

    // ----- the state byte -----

    /** Store the state byte. */
    method PutState(value: Byte) returns (rc: int)
      requires Sized() && !active
      modifies this`bytes, this`stale, this`trace, this`log, this`end, this`recs, this`kept, this`tick
      ensures rc <= 0 && SameBut(old(bytes), bytes, pos) && SameLog(old(log), old(end), old(recs), old(kept))
      ensures bytes[pos] == value || (rc < 0 && bytes[pos] == old(bytes[pos]))
      ensures old(stale) <= {pos} ==> stale <= {pos}
      ensures trace == old(trace) || trace == old(trace) + [Attempt(pos, [value], old(bytes), old(stale))]
      ensures rc == Code(At(old(tick))) && bytes == Outcome(old(bytes), pos, [value], At(old(tick))) && tick == old(tick) + 1
    {
      rc := WriteExact(pos, [value], bytes);
    }

    /** `nextufs__write_begin`: the image is dirty on disk before the first change. */
    method WriteBegin() returns (rc: int)
      requires Idle() && stale == {}
      modifies this`bytes, this`stale, this`trace, this`log, this`end, this`recs, this`kept, this`state, this`restoreClean, this`tick
      ensures old(tick) <= tick
      ensures rc <= 0 && SameBut(old(bytes), bytes, pos) && stale <= {pos} && old(trace) <= trace
      ensures restoreClean <==> old(state) == CLEAN
      ensures rc == 0 ==> Idle() && stale == {} && state == if restoreClean then DIRTY else CORRUPTED
      ensures rc < 0 ==> state == old(state)
      ensures Guarded(trace, |old(trace)|, pos, old(bytes), old(bytes))
      ensures old(state) != CLEAN || rc == 0 ==> Quiet(trace, |old(trace)|, pos) && bytes[pos] != CLEAN
      ensures AllFine(old(tick), old(tick) + 2) ==> rc == 0 && tick == old(tick) + 2
    {
      hide Guarded, Outcome, SameLog, Quiet;
      ghost var t0, first := trace, |trace|;
      NoAttempts(trace, pos, bytes);
      var original := state;
      var next := if original == CLEAN then DIRTY else CORRUPTED;
      restoreClean := state == CLEAN;
      rc := PutState(next);
      GuardedStep(t0, trace, first, pos, old(bytes), next, old(bytes), {});
      DirtyIsQuiet(t0, trace, pos, next, old(bytes), {});
      if rc == 0 {
        rc := BackendSync();
      }
      if rc == 0 {
        state := next;
      } else {
        ghost var t1, d, unsynced := trace, bytes, stale;
        var _ := PutState(original);
        GuardedStep(t1, trace, first, pos, old(bytes), original, d, unsynced);
        if original != CLEAN && trace != t1 {
          QuietStep(t1, trace, first, pos);
        }
        var _ := BackendSync();
      }
    }

    /** The clean byte is written, the fsync after it fails, and the dirty byte written back is lost. */
    ghost predicate CleanStays(t: nat) {
      At(t).Fine? && At(t + 1).Fine? && At(t + 2).Fault? && At(t + 3).Fault? && At(t + 3).landed == []
    }

    /** `nextufs__write_finish`. `good` is what the image holds apart from its state byte. */
    method WriteFinish(safe: bool, ghost good: seq<Byte>) returns (rc: int)
      requires Sized() && !active
      requires safe && restoreClean ==> SameBut(bytes, good, pos)
      modifies this`bytes, this`stale, this`trace, this`log, this`end, this`recs, this`kept, this`state, this`restoreClean, this`tick
      ensures old(tick) <= tick && (NoFaults(old(tick)) ==> rc == 0)
      ensures rc <= 0 && SameBut(old(bytes), bytes, pos) && old(trace) <= trace
      ensures !safe || !old(restoreClean) ==>
        && rc == 0 && bytes == old(bytes) && stale == old(stale) && trace == old(trace)
        && state == old(state) && restoreClean == old(restoreClean)
      ensures SameLog(old(log), old(end), old(recs), old(kept))
      ensures safe && old(restoreClean) && rc == 0 ==>
        stale == {} && bytes[pos] == CLEAN && state == CLEAN && !restoreClean
      ensures rc < 0 ==> state == old(state) && restoreClean == old(restoreClean)
      ensures Guarded(trace, |old(trace)|, pos, good, good)
      ensures safe && old(restoreClean) && CleanStays(old(tick)) ==>
        rc < 0 && tick == old(tick) + 5 && bytes == old(bytes)[pos := CLEAN]
    {
      if !safe || !restoreClean {
        return 0;
      }
      hide Guarded, Outcome, SameLog;
      NoAttempts(trace, pos, good);
      ghost var t0, first := trace, |trace|;
      rc := BackendSync();
      if rc < 0 {
        return;
      }
      StateOutcome(bytes, pos, CLEAN, At(tick));
      rc := PutState(CLEAN);
      GuardedStep(t0, trace, first, pos, good, CLEAN, old(bytes), {});
      if rc == 0 {
        rc := BackendSync();
      }
      if rc < 0 {
        ghost var t1, d, unsynced := trace, bytes, stale;
        StateOutcome(bytes, pos, DIRTY, At(tick));
        var _ := PutState(DIRTY);
        GuardedStep(t1, trace, first, pos, good, DIRTY, d, unsynced);
        var _ := BackendSync();
      } else {
        state, restoreClean := CLEAN, false;
      }
    }

    // ----- operations -----

    /** The writes of an operation. It fails with its own error `wanted` or with the first failed write,
        and only a successful one ends with the fsync. Writes may follow a failed one (clean-up paths). */
    method RunWrites(ws: seq<Patch>, wanted: int, ghost was: seq<Byte>) returns (status: int)
      requires wanted <= 0 && Restores(was) && bytes == was && Tame(ws, pos, state) && state != CLEAN
      modifies this`bytes, this`stale, this`trace, this`log, this`end, this`recs, this`kept, this`tick
      ensures old(tick) <= tick && (NoFaults(old(tick)) ==> status == Asked(ws, wanted, |was|))
      ensures status <= 0 && (wanted < 0 ==> status < 0) && Restores(was) && |bytes| == |was|
      ensures status == 0 ==> bytes == Apply(ws, was) && stale == {}
      ensures old(trace) <= trace && Quiet(trace, |old(trace)|, pos)
      ensures wanted == 0 && ws != [] && Proper(ws, |was|) && AllFine(old(tick), old(tick) + 3 * |ws| + 1) ==>
        status == 0 && tick == old(tick) + 3 * |ws| + 1 && end > 0
    {
      hide Quiet, Logged;
      QuietYet(trace, pos);
      status := wanted;
      assert ws[..0] == [];
      for k := 0 to |ws|
        invariant status <= 0 && (wanted < 0 ==> status < 0) && Restores(was)
        invariant status == 0 ==> bytes == Apply(ws[..k], was)
        invariant old(tick) <= tick && (NoFaults(old(tick)) ==> status == Asked(ws[..k], wanted, |was|))
        invariant old(trace) <= trace && Quiet(trace, |old(trace)|, pos)
        invariant wanted == 0 && Proper(ws, |was|) && AllFine(old(tick), old(tick) + 3 * |ws| + 1) ==>
          status == 0 && tick == old(tick) + 3 * k && (k > 0 ==> end > 0)
      {
        ghost var t := trace;
        InsideNext(ws, k, |was|);
        var rc := WriteExact(ws[k].offset, ws[k].data, was);
        if trace != t {
          QuietStep(t, trace, |old(trace)|, pos);
        }
        if rc < 0 && status == 0 {
          status := rc;
        }
        assert ws[..k + 1][..k] == ws[..k];
      }
      assert ws[..|ws|] == ws;
      UndoNow(this, was);
      if status == 0 {
        status := BackendSync();
      }
    }

    /** An operation succeeds, its clean byte stays although `nextufs__write_finish` fails, and the undo
        cannot read its log. */
    ghost predicate UndoLost(t: nat) {
      CleanStays(t) && At(t + 5).Fault?
    }

    /** Starting and running an operation of `n` writes goes well. */
    ghost predicate OnlyUndoLost(t: nat, n: nat) {
      AllFine(t, t + 3 * n + 4) && UndoLost(t + 3 * n + 4)
    }

    /** `finish_mutation` without a session. `mid` is the image after the first attempt to mark it clean,
        `stuck` whether the undo failed, and `replay` how far it got. An image whose undo failed is left
        marked clean exactly when the clean byte had reached it and no saved state byte was put back. */
    method FinishAlone(status: int, ghost was: seq<Byte>)
      returns (rc: int, ghost mid: seq<Byte>, ghost stuck: bool, ghost replay: Replay)
      requires status <= 0 && Restores(was) && (status == 0 ==> stale == {})
      requires state == if restoreClean then DIRTY else CORRUPTED
      modifies this`bytes, this`stale, this`trace, this`log, this`end, this`recs, this`kept, this`state, this`restoreClean,
        this`active, this`tick
      ensures NoFaults(old(tick)) ==> rc == status && !stuck
      ensures rc <= 0 && !active && |bytes| == |mid| == |old(bytes)| && old(trace) <= trace
      ensures rc == 0 ==> status == 0 && SameBut(bytes, old(bytes), pos) && stale == {}
      ensures rc == 0 ==> bytes[pos] == if old(restoreClean) then CLEAN else CORRUPTED
      ensures stuck ==> rc == EUCLEAN
      ensures rc < 0 && !stuck ==> SameBut(bytes, was, pos)
      ensures Guarded(trace, |old(trace)|, pos, if status == 0 then old(bytes) else was, was)
      ensures !old(restoreClean) ==> Quiet(trace, |old(trace)|, pos) && bytes[pos] == CORRUPTED
      ensures stuck ==> SameBut(mid, old(bytes), pos) && Replayed(old(recs[..kept]), replay, mid, bytes, pos, old(state))
      ensures stuck ==> (bytes[pos] == CLEAN <==> mid[pos] == CLEAN && !PutBack(old(recs[..kept]), replay, pos))
      ensures stuck && mid[pos] == CLEAN ==> status == 0 && old(restoreClean)
      ensures status == 0 && old(restoreClean) && old(end) > 0 && UndoLost(old(tick)) ==>
        stuck && bytes == old(bytes)[pos := CLEAN]
    {
      hide Undo, Encode, AllStorable, Number, ReadNumber, Parse, Saves, AnyCovers, PutBack, PartUndo, Fits, Guarded, Quiet,
        Outcome, Landing, Code, Torn, Logged;
      rc := status;
      UndoNow(this, was);
      ghost var tail, result := recs[..kept], if status == 0 then bytes else was;
      NoAttempts(trace, pos, result);
      if rc == 0 {
        active := false;
        rc := WriteFinish(true, bytes);
        active := true;
        UndoSameBut(tail, old(bytes), bytes, pos);
      }
      mid := bytes;
      ghost var t1 := trace;
      rc, stuck, replay := TransactionEnd(rc, was);
      ghost var t2 := trace;
      var finish := WriteFinish(rc != EUCLEAN, was);
      GuardedInParts(t1, t2, trace, |old(trace)|, pos, result, was);
      if finish < 0 {
        rc := finish;
      }
    }

    /** A one-shot mutation: mark dirty, run, finish. `mid`, `stuck` and `replay` are those of `FinishAlone`
        and `undo` is the log at its start. */
    method Mutate(ws: seq<Patch>, wanted: int)
      returns (rc: int, ghost mid: seq<Byte>, ghost stuck: bool, ghost undo: seq<Record>, ghost replay: Replay)
      requires Idle() && stale == {} && wanted <= 0
      requires Tame(ws, pos, if state == CLEAN then DIRTY else CORRUPTED)
      modifies this`bytes, this`stale, this`trace, this`log, this`end, this`recs, this`kept, this`state, this`restoreClean,
        this`active, this`tick
      ensures NoFaults(old(tick)) ==> rc == Asked(ws, wanted, |old(bytes)|) && !stuck
      ensures |bytes| == |mid| == |old(bytes)| && old(trace) <= trace
      ensures rc == 0 ==> wanted == 0 && stale == {} && SameBut(bytes, Apply(ws, Begun(old(bytes), pos)), pos)
      ensures rc == 0 ==> bytes[pos] == if old(state) == CLEAN then CLEAN else CORRUPTED
      ensures stuck ==> rc == EUCLEAN
      ensures rc < 0 && !stuck ==> SameBut(bytes, old(bytes), pos)
      ensures Guarded(trace, |old(trace)|, pos, Apply(ws, Begun(old(bytes), pos)), old(bytes))
      ensures old(state) != CLEAN ==> Quiet(trace, |old(trace)|, pos) && bytes[pos] != CLEAN
      ensures stuck ==>
        && Replayed(undo, replay, mid, bytes, pos, Begun(old(bytes), pos)[pos])
        && SameBut(Undo(undo, mid), old(bytes), pos)
      ensures stuck ==> (bytes[pos] == CLEAN <==> mid[pos] == CLEAN && !PutBack(undo, replay, pos))
      ensures stuck && mid[pos] == CLEAN ==> old(state) == CLEAN && SameBut(mid, Apply(ws, Begun(old(bytes), pos)), pos)
      ensures old(state) == CLEAN && wanted == 0 && ws != [] && Proper(ws, |old(bytes)|) && OnlyUndoLost(old(tick), |ws|) ==>
        rc == EUCLEAN && bytes == Apply(ws, Begun(old(bytes), pos))[pos := CLEAN]
    {
      hide Torn, Apply, Logged, Saves, Tame, AnyCovers, PutBack, PartUndo, Proper, Undo;
      mid, stuck, undo, replay := bytes, false, [], Replay(0, []);
      rc := WriteBegin();
      if rc < 0 {
        return;
      }
      ghost var was := bytes;
      assert was == Begun(old(bytes), pos);
      rc := TransactionBegin();
      if rc < 0 {
        var _ := WriteFinish(true, was);
        return;
      }
      var status := RunWrites(ws, wanted, was);
      UndoNow(this, was);
      undo := recs[..kept];
      ghost var d := bytes;
      rc, mid, stuck, replay := FinishAlone(status, was);
      if stuck {
        UndoFrom(undo, d, mid, was, pos);
      }
    }
  }

  /** The image as `nextufs__write_begin` leaves it. */
  ghost function Begun(d: seq<Byte>, p: nat): seq<Byte>
    requires p < |d|
  {
    d[p := if d[p] == CLEAN then DIRTY else CORRUPTED]
  }

  /** How a mutation in a session ends: refused by a failed session, without a transaction, or with one.
      `status` is what the operation's writes came to, `mid` the image they left, and `stuck` says that
      they could not all be undone. */
  datatype Ending =
    | Refused
    | NotBegun(error: int)
    | Ended(status: int, stuck: bool, refresh: int, mid: seq<Byte>, undo: seq<Record>, replay: Replay)

  /** The result reported for it. */
  function Report(e: Ending): int {
    match e
    case Refused => EIO
    case NotBegun(error) => error
    case Ended(status, stuck, refresh, _, _, _) => if stuck then EUCLEAN else if status < 0 then status else refresh
  }

  /** No later mutation is accepted. */
  predicate Fails(e: Ending) {
    e.Ended? && (e.stuck || e.status == EUCLEAN || e.refresh < 0)
  }

  /** What it makes of image `d`: nothing, the whole operation, or a part of its undo. The writes are kept
      whenever they succeeded, whatever the refresh that follows reports. */
  ghost predicate EndsAt(e: Ending, ws: seq<Patch>, d: seq<Byte>, d': seq<Byte>, p: nat, v: Byte) {
    match e
    case Refused => d' == d
    case NotBegun(error) => error < 0 && d' == d
    case Ended(status, stuck, refresh, mid, undo, replay) =>
      && status <= 0 && refresh <= 0 && (stuck ==> status < 0)
      && if stuck then Replayed(undo, replay, mid, d', p, v) && Undo(undo, mid) == d
         else d' == if status == 0 then Apply(ws, d) else d
  }

  /** An error is reported and the writes are still there, although nothing went wrong with the undo. */
  predicate KeptWithError(e: Ending) {
    e.Ended? && e.status == 0 && e.refresh < 0
  }

  ghost predicate AnyFails(es: seq<Ending>) {
    exists k :: 0 <= k < |es| && Fails(es[k])
  }

  /** The images between the mutations of a session. */
  ghost predicate SessionRuns(ops: seq<seq<Patch>>, es: seq<Ending>, images: seq<seq<Byte>>, p: nat, v: Byte) {
    && |es| <= |ops| && |images| == |es| + 1
    && forall k | 0 <= k < |es| ::
         && EndsAt(es[k], ops[k], images[k], images[k + 1], p, v)
         && (es[k].Refused? <==> AnyFails(es[..k]))
  }

  lemma {:induction false} SessionStart(ops: seq<seq<Patch>>, d: seq<Byte>, p: nat, v: Byte)
    ensures SessionRuns(ops, [], [d], p, v) && !AnyFails([])
  {
  }

  lemma {:induction false} SessionNext(ops: seq<seq<Patch>>, es: seq<Ending>, images: seq<seq<Byte>>, p: nat, v: Byte,
      e: Ending, d: seq<Byte>)
    requires SessionRuns(ops, es, images, p, v) && |es| < |ops|
    requires EndsAt(e, ops[|es|], images[|es|], d, p, v) && (e.Refused? <==> AnyFails(es))
    ensures SessionRuns(ops, es + [e], images + [d], p, v)
    ensures AnyFails(es + [e]) <==> AnyFails(es) || Fails(e)
  {
    hide EndsAt, Fails;
    var fs, more := es + [e], images + [d];
    forall k | 0 <= k < |fs|
      ensures EndsAt(fs[k], ops[k], more[k], more[k + 1], p, v) && (fs[k].Refused? <==> AnyFails(fs[..k]))
    {
      assert fs[..k] == es[..k];
      assert k == |es| ==> es[..k] == es;
    }
    if AnyFails(es) {
      var j :| 0 <= j < |es| && Fails(es[j]);
      assert Fails(fs[j]);
    }
    assert fs[|es|] == e;
    if AnyFails(fs) {
      var j :| 0 <= j < |fs| && Fails(fs[j]);
      assert j < |es| ==> Fails(es[j]);
    }
  }

  /** A long-lived writer, as a mounted file system holds one. */
  class Session {
    const img: Image
    var failed: bool

    ghost predicate Valid()
      reads this, img
    {
      && img.Idle() && (img.state == if img.restoreClean then DIRTY else CORRUPTED)
      && (!failed ==> img.stale == {})
    }

    constructor (img: Image)
      requires img.Idle() && img.stale == {} && (img.state == if img.restoreClean then DIRTY else CORRUPTED)
      ensures Valid() && this.img == img && !failed
    {
      this.img, failed := img, false;
    }

    /** `nextufs__image_refresh` rereads the superblock. */
    method Refresh() returns (rc: int)
      requires img.Idle()
      modifies img`state, img`tick
      ensures rc == Code(img.At(old(img.tick))) && img.state == old(img.state) && img.tick == old(img.tick) + 1
    {
      var f := img.Ask();
      if f.Fine? {
        img.state := img.bytes[img.pos];
      }
      rc := Code(f);
    }

    /** Nothing goes wrong in an operation of `n` writes before its refresh. */
    ghost predicate Smooth(t: nat, n: nat) {
      img.AllFine(t, t + 3 * n + 2)
    }

    /** One mutation inside the session; `e` is how it ends. A mutation that reports an error was undone,
        unless its undo failed or only the refresh after it did. */
    method Mutate(ws: seq<Patch>, wanted: int) returns (rc: int, ghost e: Ending)
      requires Valid() && wanted <= 0 && Tame(ws, img.pos, img.state)
      modifies this`failed, img
      ensures Valid() && rc <= 0 && |img.bytes| == |old(img.bytes)| && old(img.tick) <= img.tick
      ensures img.state == old(img.state) && img.restoreClean == old(img.restoreClean)
      ensures old(img.trace) <= img.trace && Quiet(img.trace, |old(img.trace)|, img.pos)
      ensures EndsAt(e, ws, old(img.bytes), img.bytes, img.pos, img.state) && rc == Report(e)
      ensures failed <==> old(failed) || Fails(e)
      ensures e.Refused? <==> old(failed)
      ensures rc < 0 && !(e.Ended? && e.stuck) ==>
        img.bytes == if KeptWithError(e) then Apply(ws, old(img.bytes)) else old(img.bytes)
      ensures rc == 0 ==> !failed && wanted == 0
      ensures !failed ==> img.bytes == if rc == 0 then Apply(ws, old(img.bytes)) else old(img.bytes)
      ensures !old(failed) && img.NoFaults(old(img.tick)) ==>
        rc == Asked(ws, wanted, |old(img.bytes)|) && e.Ended? && !e.stuck && e.status == rc && e.refresh == 0
      ensures !old(failed) && wanted != EUCLEAN && img.NoFaults(old(img.tick)) ==> !failed
      ensures !old(failed) && wanted == 0 && ws != [] && Proper(ws, |old(img.bytes)|) && Smooth(old(img.tick), |ws|) ==>
        e.Ended? && e.status == 0 && !e.stuck && e.refresh == Code(img.At(old(img.tick) + 3 * |ws| + 2))
    {
      hide Torn, Apply, Logged, Saves, Tame, AnyCovers, Quiet, Replayed, Undo, Encode, AllStorable, Proper, Code;
      QuietYet(img.trace, img.pos);
      if failed {
        return EIO, Refused;
      }
      rc := img.TransactionBegin();
      if rc < 0 {
        e := NotBegun(rc);
        return;
      }
      ghost var was := img.bytes;
      var status := img.RunWrites(ws, wanted, was);
      ghost var stuck, replay;
      UndoNow(img, was);
      ghost var t, mid, undo := img.trace, img.bytes, img.recs[..img.kept];
      rc, stuck, replay := img.TransactionEnd(status, was);
      QuietJoin(t, img.trace, |old(img.trace)|, img.pos);
      var refresh := Refresh();
      e := Ended(status, stuck, refresh, mid, undo, replay);
      if rc == EUCLEAN || refresh < 0 {
        failed := true;
      }
      if rc == 0 && refresh < 0 {
        rc := refresh;
      }
    }

    /** `nextufs_write_session_close`. */
    method Close() returns (rc: int)
      requires Valid()
      modifies this`failed, img
      ensures img.NoFaults(old(img.tick)) ==> rc == 0
      ensures failed && rc <= 0 && SameBut(old(img.bytes), img.bytes, img.pos) && old(img.trace) <= img.trace
      ensures old(failed) ==> img.bytes == old(img.bytes) && img.trace == old(img.trace)
      ensures !old(failed) && rc == 0 ==> img.stale == {}
      ensures !old(failed) && rc == 0 ==> img.bytes[img.pos] == if old(img.restoreClean) then CLEAN else CORRUPTED
      ensures !old(img.restoreClean) ==> img.trace == old(img.trace) && img.bytes == old(img.bytes)
      ensures Guarded(img.trace, |old(img.trace)|, img.pos, old(img.bytes), old(img.bytes))
    {
      rc := img.WriteFinish(!failed, img.bytes);
      failed := true;
    }
  }

  lemma {:induction false} UndoFrom(rs: seq<Record>, d: seq<Byte>, mid: seq<Byte>, was: seq<Byte>, p: nat)
    requires Fits(rs, |d|) && Undo(rs, d) == was && SameBut(mid, d, p)
    ensures Fits(rs, |mid|) && SameBut(Undo(rs, mid), was, p)
  {
    UndoSameBut(rs, mid, d, p);
  }

  /** What an open transaction restores, for `TransactionEnd`. */
  lemma {:induction false} UndoNow(img: Image, was: seq<Byte>)
    requires img.Restores(was)
    ensures img.Sized() && img.LogReadable() && |was| == |img.bytes|
    ensures Fits(img.recs[..img.kept], |img.bytes|) && Undo(img.recs[..img.kept], img.bytes) == was
    ensures SameBut(Undo(img.recs[..img.kept], img.bytes), was, img.pos)
  {
  }

  /** The image after the mutations that reported success. */
  ghost function Committed(d: seq<Byte>, ops: seq<seq<Patch>>, results: seq<int>): (r: seq<Byte>)
    requires |results| <= |ops|
    ensures |r| == |d|
  {
    if results == [] then d else
      var n := |results| - 1;
      var e := Committed(d, ops, results[..n]);
      if results[n] == 0 then Apply(ops[n], e) else e
  }

  /** A whole session: open, any number of mutations with any failures, close. */
  method RunSession(img: Image, ops: seq<seq<Patch>>, wanted: seq<int>)
    returns (results: seq<int>, rc: int, ghost failed: bool, ghost es: seq<Ending>, ghost images: seq<seq<Byte>>)
    requires img.Idle() && img.stale == {} && |wanted| == |ops| && forall k | 0 <= k < |wanted| :: wanted[k] <= 0
    requires forall k | 0 <= k < |ops| :: Tame(ops[k], img.pos, if img.state == CLEAN then DIRTY else CORRUPTED)
    modifies img
    ensures rc <= 0 && |results| <= |ops| && (rc == 0 ==> |results| == |ops|) && |img.bytes| == |old(img.bytes)|
    ensures !failed ==> SameBut(img.bytes, Committed(Begun(old(img.bytes), img.pos), ops, results), img.pos)
    ensures rc == 0 && !failed ==> img.stale == {}
    ensures rc == 0 && !failed ==> img.bytes[img.pos] == if old(img.state) == CLEAN then CLEAN else CORRUPTED
    ensures failed || old(img.state) != CLEAN ==> img.bytes[img.pos] != CLEAN
    ensures old(img.trace) <= img.trace
    ensures !failed ==> Guarded(img.trace, |old(img.trace)|, img.pos,
      Committed(Begun(old(img.bytes), img.pos), ops, results), old(img.bytes))
    ensures failed || old(img.state) != CLEAN ==> Quiet(img.trace, |old(img.trace)|, img.pos)
    ensures |es| == |results| && forall k | 0 <= k < |es| :: results[k] == Report(es[k])
    ensures SessionRuns(ops, es, images, img.pos, Begun(old(img.bytes), img.pos)[img.pos])
    ensures images[0] == Begun(old(img.bytes), img.pos) && (failed <==> AnyFails(es))
    ensures if failed then img.bytes == images[|es|] else SameBut(img.bytes, images[|es|], img.pos)
    ensures img.NoFaults(old(img.tick)) && (forall k | 0 <= k < |wanted| :: wanted[k] != EUCLEAN) ==>
      rc == 0 && !failed && forall k | 0 <= k < |ops| :: results[k] == Asked(ops[k], wanted[k], |old(img.bytes)|)
  {
    hide Asked, Torn, Apply, Logged, Saves, Tame, AnyCovers, EndsAt, Report, Fails, SessionRuns, AnyFails;
    results, failed, es, images := [], false, [], [Begun(img.bytes, img.pos)];
    ghost var calm := img.NoFaults(img.tick) && forall k | 0 <= k < |wanted| :: wanted[k] != EUCLEAN;
    SessionStart(ops, Begun(img.bytes, img.pos), img.pos, Begun(img.bytes, img.pos)[img.pos]);
    rc := img.WriteBegin();
    if rc < 0 {
      return;
    }
    ghost var start := img.bytes;
    assert start == Begun(old(img.bytes), img.pos);
    var session := new Session(img);
    for k := 0 to |ops|
      invariant session.Valid() && session.img == img && fresh(session)
      invariant img.restoreClean == (old(img.state) == CLEAN)
      invariant |results| == k && old(img.trace) <= img.trace && Quiet(img.trace, |old(img.trace)|, img.pos)
      invariant |img.bytes| == |start|
      invariant !session.failed ==> img.bytes == Committed(start, ops, results)
      invariant |es| == k && (forall j | 0 <= j < k :: results[j] == Report(es[j]))
      invariant SessionRuns(ops, es, images, img.pos, start[img.pos]) && |images| == k + 1
      invariant old(img.tick) <= img.tick
      invariant calm ==> !session.failed && forall j | 0 <= j < k :: results[j] == Asked(ops[j], wanted[j], |start|)
      invariant images[0] == start && images[k] == img.bytes && (session.failed <==> AnyFails(es))
    {
      var result;
      ghost var e, t := Refused, img.trace;
      result, e := session.Mutate(ops[k], wanted[k]);
      QuietJoin(t, img.trace, |old(img.trace)|, img.pos);
      SessionNext(ops, es, images, img.pos, start[img.pos], e, img.bytes);
      es, images := es + [e], images + [img.bytes];
      assert (results + [result])[..k] == results;
      results := results + [result];
    }
    failed := session.failed;
    rc := session.Close();
  }

  /** A failed recovery can leave the image marked clean: the operation succeeds, marking it clean reaches
      the image but the fsync fails, the dirty byte written back is lost, and the undo log cannot be read.
      The caller gets EUCLEAN, the operation's write is still there, and the state byte says clean. */
  method CleanAfterFailedUndo() returns (img: Image, rc: int)
    ensures fresh(img) && rc == EUCLEAN && img.pos == 0 && img.bytes == [CLEAN, 9]
  {
    var lost := Fault(EIO, []);
    var faults := seq(9, i => Fine) + [lost, lost, Fine, lost];
    img := new Image([CLEAN, 7], 0, faults);
    var ws := [Patch(1, [9])];
    ghost var mid, stuck, undo, replay;
    rc, mid, stuck, undo, replay := img.Mutate(ws, 0);
  }

  /** An error that was not undone: the operation's writes succeed and only the refresh after them fails. */
  method KeptAfterError() returns (session: Session, rc: int, ghost e: Ending)
    ensures fresh(session) && rc == EIO && session.failed && KeptWithError(e)
    ensures session.img.pos == 0 && session.img.bytes == [DIRTY, 9]
  {
    var img := new Image([CLEAN, 7], 0, seq(7, i => Fine) + [Fault(EIO, [])]);
    rc := img.WriteBegin();
    session := new Session(img);
    rc, e := session.Mutate([Patch(1, [9])], 0);
  }

  lemma {:induction false} Middle(a: seq<Byte>, b: seq<Byte>, c: seq<Byte>)
    ensures (a + b + c)[|a|..|a| + |b|] == b
  {
  }

  /** The record that ends at `end`, as its footer describes it. */
  lemma {:induction false} StoredRecord(log: seq<Byte>, end: nat, rs: seq<Record>, n: nat)
    requires 0 < end <= |log| && n <= |rs| && log[..end] == Encode(rs[..n]) && AllStorable(rs)
    ensures 0 < n && FOOTER + |rs[n - 1].saved| <= end
    ensures ReadNumber(log[end - FOOTER..end][..8]) == rs[n - 1].offset
    ensures ReadNumber(log[end - FOOTER..end][8..]) == |rs[n - 1].saved|
    ensures var start := end - FOOTER - |rs[n - 1].saved|;
      log[start..start + |rs[n - 1].saved|] == rs[n - 1].saved && log[..start] == Encode(rs[..n - 1])
  {
    var r := rs[n - 1];
    var front := Encode(rs[..n - 1]);
    assert rs[..n][..n - 1] == rs[..n - 1];
    assert log[..end] == front + r.saved + Footer(r);
    FooterRead(r);
    assert log[end - FOOTER..end] == log[..end][end - FOOTER..] == Footer(r);
    var start := |front|;
    assert log[..start] == log[..end][..start] == front;
    Middle(front, r.saved, Footer(r));
    assert log[start..start + |r.saved|] == log[..end][start..start + |r.saved|];
  }
}
