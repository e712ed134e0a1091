/** VDI images: a block map over a file of block slots, with an optional parent. Only the header's
    allocation count and the map are metadata; each of their words is written whole or not at all. */
module Vdi {
  import opened Scale

  const UNALLOCATED := 0xffff_ffff
  const ZERO := 0xffff_fffe
  const MAX_BLOCKS := 0x100_0000

  datatype Outcome = Done | Error(code: int)
  const EIO := -5
  const ENOMEM := -12
  const ENOSPC := -28
  const EUCLEAN := -117

  /** What the file holds: the allocation count, the block map and the data slots. */
  datatype File = File(count: nat, map_: seq<nat>, slots: seq<seq<Byte>>)

  /** Block size, disk size and the parent's bytes. */
  datatype Shape = Shape(size: nat, disk: nat, hasParent: bool, parent: seq<Byte>)

  predicate Plain(e: nat) {
    e != UNALLOCATED && e != ZERO
  }

  /** The block map is injective into the used slots. */
  ghost predicate MapOk(m: seq<nat>, count: nat) {
    && (forall i | 0 <= i < |m| && Plain(m[i]) :: m[i] < count)
    && (forall i, j | 0 <= i < j < |m| && Plain(m[i]) :: m[i] != m[j])
  }

  /** The checks made when an image is opened. */
  ghost predicate Accepted(f: File) {
    |f.map_| <= MAX_BLOCKS && f.count <= |f.map_| && f.count <= |f.slots| && MapOk(f.map_, f.count)
  }

  ghost predicate Fits(s: Shape, blocks: nat) {
    0 < s.size && 0 < blocks && Times(s.size, blocks - 1) < s.disk <= Times(s.size, blocks)
  }

  ghost predicate Sized(s: Shape, slots: seq<seq<Byte>>) {
    forall i | 0 <= i < |slots| :: |slots[i]| == s.size
  }

  // ----- what the guest sees -----

  /** A byte that the image itself does not hold. */
  function Inherited(s: Shape, x: nat): Byte {
    if s.hasParent && x < |s.parent| then s.parent[x] else 0
  }

  ghost function ByteAt(s: Shape, m: seq<nat>, slots: seq<seq<Byte>>, x: nat): Byte
    requires 0 < s.size && Quot(s.size, x) < |m| && Sized(s, slots) && MapOk(m, |slots|)
  {
    var b := Quot(s.size, x);
    if m[b] == UNALLOCATED then Inherited(s, x)
    else if m[b] == ZERO then 0
    else slots[m[b]][x - Times(s.size, b)]
  }

  ghost function Guest(s: Shape, m: seq<nat>, slots: seq<seq<Byte>>): (g: seq<Byte>)
    requires Fits(s, |m|) && Sized(s, slots) && MapOk(m, |slots|)
    ensures |g| == s.disk
  {
    seq(s.disk, x requires 0 <= x < s.disk => (QuotBelow(s.size, x, |m|); ByteAt(s, m, slots, x)))
  }

  // ----- publishing a new block -----

  /** How one metadata write ended: what it reported and whether the word reached the file. */
  datatype Fate = Fate(ok: bool, landed: bool)
  datatype Fates = Fates(count: Fate, entry: Fate, entryBack: Fate, countBack: Fate)

  ghost predicate Honest(o: Fates) {
    && (o.count.ok ==> o.count.landed) && (o.entry.ok ==> o.entry.landed)
    && (o.entryBack.ok ==> o.entryBack.landed) && (o.countBack.ok ==> o.countBack.landed)
  }

  function SetCount(f: File, n: nat, w: Fate): File {
    if w.landed then f.(count := n) else f
  }

  function SetEntry(f: File, b: nat, e: nat, w: Fate): File
    requires b < |f.map_|
  {
    if w.landed then f.(map_ := f.map_[b := e]) else f
  }

  /** The file after each metadata write of one allocation: the count, the map entry and, after a
      failure, the restored entry and count. */
  function Publish(f: File, b: nat, o: Fates): (states: seq<File>)
    requires b < |f.map_|
    ensures 0 < |states|
  {
    var c, e := f.count, f.map_[b];
    var f1 := SetCount(f, c + 1, o.count);
    var tried := if o.count.ok then [f1, SetEntry(f1, b, c, o.entry)] else [f1];
    if o.count.ok && o.entry.ok then tried
    else
      var f3 := SetEntry(tried[|tried| - 1], b, e, o.entryBack);
      tried + [f3, SetCount(f3, c, o.countBack)]
  }

  /** The one way to leave a map entry out of range: the failed map write did reach the file, restoring
      the entry did not, and restoring the count did. */
  predicate Strands(o: Fates) {
    o.count.ok && !o.entry.ok && o.entry.landed && !o.entryBack.landed && o.countBack.landed
  }

  ghost predicate Allocatable(f: File, b: nat) {
    Accepted(f) && b < |f.map_| && !Plain(f.map_[b]) && f.count < |f.map_| && f.count < |f.slots|
  }

  lemma {:induction false} EntryOk(m: seq<nat>, b: nat, c: nat)
    requires MapOk(m, c) && b < |m| && !Plain(m[b]) && c < MAX_BLOCKS
    ensures MapOk(m[b := c], c + 1) && !MapOk(m[b := c], c) && MapOk(m, c + 1)
  {
    assert m[b := c][b] == c;
  }

  /** Every state of the file on the way passes the checks made at open, unless the last one is stranded. */
  lemma {:induction false} PublishAccepted(f: File, b: nat, o: Fates)
    requires Allocatable(f, b) && Honest(o)
    ensures var states := Publish(f, b, o);
      && (forall i | 0 <= i < |states| - 1 :: Accepted(states[i]))
      && (Accepted(states[|states| - 1]) <==> !Strands(o))
  {
    hide MapOk;
    var c, e := f.count, f.map_[b];
    EntryOk(f.map_, b, c);
    assert f.map_[b := c][b := e] == f.map_ && f.map_[b := e] == f.map_;
  }

  /** The stranded case exists: an image of one block whose map refers to slot 0 while no slot is used. */
  lemma {:induction false} StrandedExample() returns (f: File, o: Fates)
    ensures Allocatable(f, 0) && Honest(o)
    ensures var states := Publish(f, 0, o); !Accepted(states[|states| - 1])
  {
    f := File(0, [UNALLOCATED], [[7]]);
    o := Fates(Fate(true, true), Fate(false, true), Fate(false, false), Fate(true, true));
    PublishAccepted(f, 0, o);
  }

  // ----- views -----

  lemma {:induction false} MapWiden(m: seq<nat>, c: nat, n: nat)
    requires MapOk(m, c) && c <= n
    ensures MapOk(m, n)
  {
  }

  /** Slots from the count on are not referenced: changing them changes no guest byte. */
  lemma {:induction false} UnusedSlot(s: Shape, m: seq<nat>, c: nat, a: seq<seq<Byte>>, b: seq<seq<Byte>>)
    requires Fits(s, |m|) && Sized(s, a) && Sized(s, b) && MapOk(m, c) && c <= |a| && c <= |b|
    requires a[..c] == b[..c]
    ensures MapOk(m, |a|) && MapOk(m, |b|) && Guest(s, m, a) == Guest(s, m, b)
  {
    MapWiden(m, c, |a|);
    MapWiden(m, c, |b|);
    forall x | 0 <= x < s.disk
      ensures Guest(s, m, a)[x] == Guest(s, m, b)[x]
    {
      QuotBelow(s.size, x, |m|);
      var e := m[Quot(s.size, x)];
      if Plain(e) {
        assert a[e] == a[..c][e] == b[..c][e] == b[e];
      }
    }
  }

  /** What a new block must hold: the bytes the guest saw there before. */
  ghost predicate Copies(s: Shape, e: nat, b: nat, data: seq<Byte>) {
    |data| == s.size && forall i: nat | i < s.size :: data[i] == if e == UNALLOCATED then Inherited(s, Times(s.size, b) + i) else 0
  }

  /** Mapping a block to a slot that copies its old view changes no guest byte. */
  lemma {:induction false} MappedSame(s: Shape, m: seq<nat>, b: nat, c: nat, slots: seq<seq<Byte>>)
    requires Fits(s, |m|) && Sized(s, slots) && MapOk(m, c) && c < |slots| && b < |m| && !Plain(m[b]) && c < MAX_BLOCKS
    requires Copies(s, m[b], b, slots[c])
    ensures MapOk(m, |slots|) && MapOk(m[b := c], |slots|)
    ensures Guest(s, m[b := c], slots) == Guest(s, m, slots)
  {
    EntryOk(m, b, c);
    MapWiden(m, c, |slots|);
    MapWiden(m[b := c], c + 1, |slots|);
    forall x | 0 <= x < s.disk
      ensures Guest(s, m[b := c], slots)[x] == Guest(s, m, slots)[x]
    {
      QuotBelow(s.size, x, |m|);
      var q := Quot(s.size, x);
      if q == b {
        var i := x - Times(s.size, b);
        assert slots[c][i] == if m[b] == UNALLOCATED then Inherited(s, Times(s.size, b) + i) else 0;
      }
    }
  }

  ghost predicate InBlock(s: Shape, b: nat, at: nat, off: nat, n: nat) {
    at == Times(s.size, b) + off && off + n <= s.size && at + n <= s.disk
  }

  /** Storing bytes in the slot of block `b` changes the guest's bytes at that place and no others. */
  lemma {:induction false} StoredBytes(s: Shape, m: seq<nat>, slots: seq<seq<Byte>>, b: nat, at: nat, off: nat, data: seq<Byte>)
    requires Fits(s, |m|) && Sized(s, slots) && MapOk(m, |slots|) && b < |m| && Plain(m[b])
    requires InBlock(s, b, at, off, |data|)
    ensures m[b] < |slots| && |slots[m[b]]| == s.size
    ensures var after := slots[m[b] := Put(slots[m[b]], off, data)];
      Sized(s, after) && Guest(s, m, after) == Put(Guest(s, m, slots), at, data)
    ensures Guest(s, m, slots)[at..at + |data|] == slots[m[b]][off..off + |data|]
  {
    var e := m[b];
    var after := slots[e := Put(slots[e], off, data)];
    assert Sized(s, after);
    forall x: nat | x < s.disk
      ensures Guest(s, m, after)[x] == Put(Guest(s, m, slots), at, data)[x]
      ensures at <= x < at + |data| ==> Guest(s, m, slots)[x] == slots[e][x - at + off]
    {
      StoredByte(s, m, slots, b, at, off, data, x);
    }
  }

  lemma {:induction false} OtherSlot(m: seq<nat>, c: nat, q: nat, b: nat)
    requires MapOk(m, c) && q < |m| && b < |m| && q != b && Plain(m[b])
    ensures m[q] != m[b]
  {
  }

  lemma {:induction false} StoredByte(s: Shape, m: seq<nat>, slots: seq<seq<Byte>>, b: nat, at: nat, off: nat, data: seq<Byte>,
      x: nat)
    requires Fits(s, |m|) && Sized(s, slots) && MapOk(m, |slots|) && b < |m| && Plain(m[b]) && x < s.disk
    requires InBlock(s, b, at, off, |data|)
    ensures Quot(s.size, x) < |m|
    ensures var e := m[b];
      var after := slots[e := Put(slots[e], off, data)];
      Sized(s, after)
      && ByteAt(s, m, after, x) == if at <= x < at + |data| then data[x - at] else ByteAt(s, m, slots, x)
    ensures at <= x < at + |data| ==> ByteAt(s, m, slots, x) == slots[m[b]][x - at + off]
  {
    QuotBelow(s.size, x, |m|);
    var q := Quot(s.size, x);
    if at <= x < at + |data| {
      QuotUnique(s.size, b, x - Times(s.size, b));
    } else if q != b {
      OtherSlot(m, |slots|, q, b);
    }
  }

  /** What a data write leaves: everything if it succeeds, any of it if not. */
  function Landed(ok: bool, torn: seq<bool>, data: seq<Byte>, was: seq<Byte>): (r: seq<Byte>)
    requires |data| == |was|
    ensures |r| == |data| && (ok ==> r == data)
    ensures forall i | 0 <= i < |r| :: r[i] == data[i] || r[i] == was[i]
  {
    if ok then data
    else seq(|data|, i requires 0 <= i < |data| => if i < |torn| && torn[i] then data[i] else was[i])
  }

  lemma {:induction false} TornTail(v: seq<Byte>, u: seq<Byte>, w: seq<Byte>, at: nat, data: seq<Byte>, n: nat)
    requires at + |data| <= |v| && n <= |data| && u == Put(v, at, data[..n]) && Torn(u, w, at + n, data[n..])
    ensures Torn(v, w, at, data)
  {
  }

  lemma {:induction false} TornNothing(v: seq<Byte>, at: nat, rest: seq<Byte>)
    ensures Torn(v, v, at, rest)
  {
  }

  lemma {:induction false} TornPart(v: seq<Byte>, at: nat, landed: seq<Byte>, rest: seq<Byte>)
    requires |landed| <= |rest| && at + |landed| <= |v|
    requires forall i | 0 <= i < |landed| :: landed[i] == rest[i] || landed[i] == v[at..at + |landed|][i]
    ensures Torn(v, Put(v, at, landed), at, rest)
  {
    var u := Put(v, at, landed);
    forall x | 0 <= x < |v|
      ensures u[x] == v[x] || (at <= x < at + |rest| && u[x] == rest[x - at])
    {
      if at <= x < at + |landed| {
        assert v[at..at + |landed|][x - at] == v[x];
      }
    }
  }

  /** How the file answers one read or write. A write that fails may have reached the file in part. */
  datatype Answer = Answer(ok: bool, landed: bool, torn: seq<bool>, junk: seq<Byte>)

  // ----- free slots -----

  /** How many of the blocks `[lo, hi)` have no slot. */
  function Unplain(m: seq<nat>, lo: nat, hi: nat): (n: nat)
    requires hi <= |m|
    decreases hi
  {
    if hi <= lo then 0 else Unplain(m, lo, hi - 1) + if Plain(m[hi - 1]) then 0 else 1
  }

  lemma {:induction false} UnplainFirst(m: seq<nat>, lo: nat, hi: nat)
    requires lo < hi <= |m|
    ensures Unplain(m, lo, hi) == Unplain(m, lo + 1, hi) + if Plain(m[lo]) then 0 else 1
    decreases hi
  {
    if lo + 1 < hi {
      UnplainFirst(m, lo, hi - 1);
    }
  }

  lemma {:induction false} UnplainSame(m: seq<nat>, k: seq<nat>, lo: nat, hi: nat)
    requires hi <= |m| == |k| && forall i | lo <= i < hi :: m[i] == k[i]
    ensures Unplain(m, lo, hi) == Unplain(k, lo, hi)
    decreases hi
  {
    if lo < hi {
      UnplainSame(m, k, lo, hi - 1);
    }
  }

  /** The first block of the range has its slot now: either it had one, or one slot less is free. */
  lemma {:induction false} UnplainStep(m: seq<nat>, k: seq<nat>, lo: nat, hi: nat)
    requires lo < hi <= |m| == |k| && forall i | 0 <= i < |m| && i != lo :: k[i] == m[i]
    ensures Unplain(m, lo, hi) == Unplain(k, lo + 1, hi) + if Plain(m[lo]) then 0 else 1
    ensures lo + 1 == hi ==> Unplain(k, lo + 1, hi) == 0
  {
    UnplainFirst(m, lo, hi);
    UnplainSame(m, k, lo + 1, hi);
  }

  /** The block of the first byte, and of the first byte of the next turn. */
  lemma {:induction false} Turn(size: nat, at: nat, n: nat, end: nat)
    requires 0 < size && 0 < n && at + n <= end
    requires at + n == end || at + n == Times(size, Quot(size, at)) + size
    ensures Quot(size, at) <= Quot(size, end - 1)
    ensures at + n < end ==> Quot(size, at + n) == Quot(size, at) + 1
    ensures at + n == end && n <= size - (at - Times(size, Quot(size, at))) ==> Quot(size, end - 1) == Quot(size, at)
  {
    var b := Quot(size, at);
    if at + n < end {
      QuotUnique(size, b + 1, 0);
    }
    if Quot(size, end - 1) < b {
      TimesMonotone(size, Quot(size, end - 1), b);
    }
    if at + n == end && n <= size - (at - Times(size, b)) {
      QuotUnique(size, b, end - 1 - Times(size, b));
    }
  }

  class Vdi {
    const s: Shape
    const answers: seq<Answer>   // how the file answers, in the order of time; then without failures
    var tick: nat                // how often it has been asked
    var blockMap: seq<nat>
    var used: nat
    var failed: bool
    var file: File
    ghost var history: seq<File>   // the file after every metadata write

    ghost predicate Valid()
      reads this
    {
      && Fits(s, |blockMap|) && |blockMap| <= MAX_BLOCKS
      && MapOk(blockMap, used) && used <= |blockMap| && used <= |file.slots| && Sized(s, file.slots)
      && |file.map_| == |blockMap|
      && (!failed ==> file.map_ == blockMap && file.count == used)
    }

    ghost function View(): (g: seq<Byte>)
      requires Valid()
      reads this
    {
      MapWiden(blockMap, used, |file.slots|);
      Guest(s, blockMap, file.slots)
    }

    /** Opening an accepted file. */
    constructor (s: Shape, f: File, answers: seq<Answer>)
      requires Accepted(f) && Fits(s, |f.map_|) && Sized(s, f.slots)
      ensures Valid() && this.s == s && file == f && !failed && history == [] && this.answers == answers
    {
      this.answers, tick := answers, 0;
      this.s, blockMap, used, failed, file, history := s, f.map_, f.count, false, f, [];
    }

    function At(i: nat): Answer {
      if i < |answers| then answers[i] else Answer(true, true, [], [])
    }

    /** Nothing failed from number `a` on, before number `b`. */
    ghost predicate Fine(a: nat, b: nat) {
      forall i | a <= i < b :: At(i).ok
    }

    method Ask() returns (w: Answer)
      modifies this`tick
      ensures w == At(old(tick)) && tick == old(tick) + 1
    {
      w := At(tick);
      tick := tick + 1;
    }

    /** One metadata word: it may fail, and a failed one may have reached the file all the same. */
    method Word() returns (w: Fate)
      modifies this`tick
      ensures (w.ok ==> w.landed) && tick == old(tick) + 1 && w.ok == Fine(old(tick), tick)
    {
      var a := Ask();
      w := Fate(a.ok, a.ok || a.landed);
    }

    method PutCount(n: nat) returns (w: Fate)
      modifies this`file, this`history, this`tick
      ensures tick == old(tick) + 1 && w.ok == Fine(old(tick), tick)
      ensures (w.ok ==> w.landed) && file == SetCount(old(file), n, w) && history == old(history) + [file]
    {
      w := Word();
      file := SetCount(file, n, w);
      history := history + [file];
    }

    method PutEntry(b: nat, e: nat) returns (w: Fate)
      requires b < |file.map_|
      modifies this`file, this`history, this`tick
      ensures tick == old(tick) + 1 && w.ok == Fine(old(tick), tick)
      ensures (w.ok ==> w.landed) && file == SetEntry(old(file), b, e, w) && history == old(history) + [file]
    {
      w := Word();
      file := SetEntry(file, b, e, w);
      history := history + [file];
    }

    /** The contents a new block starts with. */
    method Contents(b: nat) returns (ok: bool, data: seq<Byte>)
      requires Valid() && b < |blockMap| && !Plain(blockMap[b])
      modifies this`tick
      ensures old(tick) <= tick && ok == Fine(old(tick), tick)
      ensures ok ==> Copies(s, blockMap[b], b, data)
    {
      var start := Mul(s.size, b);
      data := Zeros(s.size);
      ok := true;
      if blockMap[b] == UNALLOCATED && s.hasParent {
        var inherited := if start < |s.parent| then |s.parent| - start else 0;
        if inherited > s.size {
          inherited := s.size;
        }
        if inherited > 0 {
          var w := Ask();
          ok := w.ok;
          data := Put(data, 0, s.parent[start..start + inherited]);
        }
      }
    }

    /** `nextufs_vdi_materialize_block`. */
    method Materialize(b: nat) returns (r: Outcome, ghost o: Fates)
      requires Valid() && !failed && b < |blockMap|
      modifies this
      ensures Valid() && View() == old(View()) && |blockMap| == |old(blockMap)|
      ensures old(tick) <= tick && (r.Done? ==> Fine(old(tick), tick))
      ensures Fine(old(tick), tick) ==> r == if Plain(old(blockMap[b])) || old(used) < |blockMap| then Done else Error(ENOSPC)
      ensures r == Error(ENOSPC) ==> !Plain(old(blockMap[b])) && old(used) == |blockMap|
      ensures r.Done? ==> used == old(used) + if Plain(old(blockMap[b])) then 0 else 1
      ensures forall i | 0 <= i < |blockMap| && i != b :: blockMap[i] == old(blockMap)[i]
      ensures r.Done? ==> Plain(blockMap[b]) && !failed
      ensures Plain(old(blockMap[b])) ==> r.Done? && history == old(history)
      ensures !Plain(old(blockMap[b])) && old(used) == |blockMap| ==> r == Error(ENOSPC) && history == old(history)
      ensures old(history) <= history && Honest(o)
      ensures forall i | |old(history)| <= i < |history| - 1 :: Accepted(history[i])
      ensures history != old(history) ==>
        history[|history| - 1] == file && (Accepted(file) <==> !Strands(o)) && (Strands(o) ==> r == Error(EUCLEAN) && failed)
      ensures failed ==> r == Error(EUCLEAN)
    {
      hide Guest, MapOk, Fits, Sized, Copies, Accepted;
      o := Fates(Fate(true, true), Fate(true, true), Fate(true, true), Fate(true, true));
      if Plain(blockMap[b]) {
        return Done, o;
      }
      if used >= |blockMap| {
        return Error(ENOSPC), o;
      }
      var ok, data := Contents(b);
      if !ok {
        return Error(EIO), o;
      }
      ok := WriteSlot(data);
      if !ok {
        return Error(EIO), o;
      }
      ghost var f := file;
      AllocatableNow(s, f, b);
      r, o := PublishBlock(b);
      PublishAccepted(f, b, o);
      if r.Done? {
        MappedSame(s, blockMap, b, used, file.slots);
        EntryOk(blockMap, b, used);
        blockMap, used := blockMap[b := used], used + 1;
      }
    }

    /** The metadata writes of an allocation: the count before the map entry, both restored after an error. */
    method PublishBlock(b: nat) returns (r: Outcome, ghost o: Fates)
      requires !failed && b < |blockMap| && file.map_ == blockMap && file.count == used
      modifies this`file, this`history, this`failed, this`tick
      ensures old(tick) <= tick && r.Done? == Fine(old(tick), tick) && r != Error(ENOSPC)
      ensures Honest(o) && file.slots == old(file.slots) && |file.map_| == |blockMap|
      ensures history == old(history) + Publish(old(file), b, o) && history[|history| - 1] == file
      ensures Strands(o) ==> r == Error(EUCLEAN)
      ensures failed <==> r == Error(EUCLEAN)
      ensures r.Done? ==> file.map_ == blockMap[b := used] && file.count == used + 1
      ensures r.Error? && !failed ==> file.map_ == blockMap && file.count == used
    {
      var entry, entryBack, countBack := Fate(false, false), Fate(false, false), Fate(false, false);
      var count := PutCount(used + 1);
      if count.ok {
        entry := PutEntry(b, used);
      }
      if count.ok && entry.ok {
        o := Fates(count, entry, entryBack, countBack);
        return Done, o;
      }
      entryBack := PutEntry(b, blockMap[b]);
      countBack := PutCount(used);
      o := Fates(count, entry, entryBack, countBack);
      if !entryBack.ok || !countBack.ok {
        failed := true;
        return Error(EUCLEAN), o;
      }
      return Error(EIO), o;
    }

    /** The data of a new block, stored in the first free slot. A failed write may leave anything there. */
    method WriteSlot(data: seq<Byte>) returns (ok: bool)
      requires Valid() && |data| == s.size
      modifies this`file, this`tick
      ensures old(tick) <= tick && ok == Fine(old(tick), tick)
      ensures Valid() && View() == old(View())
      ensures file == old(file).(slots := file.slots)
      ensures ok ==> used < |file.slots| && file.slots[used] == data
    {
      ghost var a := file.slots;
      var w := Ask();
      ok := w.ok;
      var landed := if ok || |w.junk| != s.size then data else w.junk;
      if ok || w.landed {
        file := file.(slots := if used < |file.slots| then file.slots[used := landed] else file.slots + [landed]);
      }
      assert a[..used] == file.slots[..used];
      UnusedSlot(s, blockMap, used, a, file.slots);
    }

    /** The part of a write that lies in one block. */
    method WriteChunk(at: nat, rest: seq<Byte>) returns (r: Outcome, size: nat)
      requires Valid() && !failed && rest != [] && at + |rest| <= s.disk
      modifies this
      ensures Valid() && old(history) <= history && |blockMap| == |old(blockMap)|
      ensures r.Done? ==> 0 < size <= |rest| && View() == Put(old(View()), at, rest[..size]) && !failed
      ensures r.Error? ==> Torn(old(View()), View(), at, rest)
      ensures failed ==> r == Error(EUCLEAN)
      ensures var b := Quot(s.size, at);
        && b < |blockMap| && old(tick) <= tick && (r.Done? ==> Fine(old(tick), tick))
        && (Fine(old(tick), tick) ==> r == if Plain(old(blockMap)[b]) || old(used) < |blockMap| then Done else Error(ENOSPC))
        && (r == Error(ENOSPC) ==> !Plain(old(blockMap)[b]) && old(used) == |blockMap|)
        && (r.Done? ==> used == old(used) + (if Plain(old(blockMap)[b]) then 0 else 1))
        && (forall i | 0 <= i < |blockMap| && i != b :: blockMap[i] == old(blockMap)[i])
        && (r.Done? ==> size == |rest| || at + size == Times(s.size, b) + s.size)
        && size <= s.size - (at - Times(s.size, b))
      ensures forall i | |old(history)| <= i < |history| && !Accepted(history[i]) :: i == |history| - 1 && failed
    {
      hide Guest, MapOk, Sized, Accepted, Torn, Put, Landed, Times, Quot, Inherited, Strands, Honest;
      var b, off := DivMod(s.size, at);
      QuotBelow(s.size, at, |blockMap|);
      size := if s.size - off > |rest| then |rest| else s.size - off;
      ghost var o;
      r, o := Materialize(b);
      if !r.Done? {
        assert Torn(View(), View(), at, rest) by { TornNothing(View(), at, rest); }
        return;
      }
      var e := blockMap[b];
      MapWiden(blockMap, used, |file.slots|);
      StoredBytes(s, blockMap, file.slots, b, at, off, rest[..size]);
      var slot := file.slots[e];
      var w := Ask();
      var ok := w.ok;
      var landed := Landed(ok, w.torn, rest[..size], slot[off..off + size]);
      ghost var v := View();
      StoredBytes(s, blockMap, file.slots, b, at, off, landed);
      TornPart(v, at, landed, rest);
      file := file.(slots := file.slots[e := Put(slot, off, landed)]);
      assert View() == Put(v, at, landed);
      r := if ok then Done else Error(EIO);
    }

    /** `nextufs_vdi_backend_read`. */
    method Read(offset: nat, size: nat) returns (r: Outcome, data: seq<Byte>)
      requires Valid()
      modifies this`tick
      ensures offset + size > s.disk ==> r == Error(EIO)
      ensures offset + size <= s.disk ==> old(tick) <= tick && r == if Fine(old(tick), tick) then Done else Error(EIO)
      ensures r.Done? ==> offset + size <= s.disk && data == View()[offset..offset + size]
    {
      hide Guest, MapOk, Sized;
      data := [];
      if offset + size > s.disk {
        return Error(EIO), data;
      }
      var n := 0;
      while n < size
        invariant n <= size && data == View()[offset..offset + n]
        invariant old(tick) <= tick && Fine(old(tick), tick)
      {
        var at := offset + n;
        var b, off := DivMod(s.size, at);
        QuotBelow(s.size, at, |blockMap|);
        var chunk := if s.size - off > size - n then size - n else s.size - off;
        var ok, part := ReadChunk(b, at, off, chunk);
        if !ok {
          return Error(EIO), data;
        }
        data := data + part;
        n := n + chunk;
      }
      r := Done;
    }

    /** The part of a read that lies in one block: from a slot, from the parent or zeros. */
    method ReadChunk(b: nat, at: nat, off: nat, chunk: nat) returns (ok: bool, part: seq<Byte>)
      requires Valid() && b < |blockMap| && InBlock(s, b, at, off, chunk)
      modifies this`tick
      ensures old(tick) <= tick && ok == Fine(old(tick), tick)
      ensures ok ==> part == View()[at..at + chunk]
    {
      ghost var slots := (MapWiden(blockMap, used, |file.slots|); file.slots);
      var e := blockMap[b];
      ok, part := true, Zeros(chunk);
      if e == UNALLOCATED {
        if s.hasParent && at < |s.parent| {
          var have := if chunk > |s.parent| - at then |s.parent| - at else chunk;
          var w := Ask();
          ok := w.ok;
          part := Put(part, 0, s.parent[at..at + have]);
        }
      } else if e != ZERO {
        var w := Ask();
        ok := w.ok;
        part := file.slots[e][off..off + chunk];
      }
      forall i | 0 <= i < chunk
        ensures part[i] == View()[at + i]
      {
        QuotUnique(s.size, b, off + i);
      }
    }

    lemma LastInside(offset: nat, n: nat)
      requires Valid() && offset + n <= s.disk
      ensures 0 < n ==> 0 < s.size && Blocks(offset, n) <= |blockMap|
    {
      if 0 < n {
        QuotBelow(s.size, offset + n - 1, |blockMap|);
      }
    }

    lemma Before(at: nat, end: nat)
      requires 0 < s.size && at < end
      ensures Quot(s.size, at) <= Quot(s.size, end - 1)
    {
      if Quot(s.size, end - 1) < Quot(s.size, at) {
        TimesMonotone(s.size, Quot(s.size, end - 1), Quot(s.size, at));
      }
    }

    /** The block after the last one of a range. */
    ghost function Blocks(offset: nat, n: nat): nat
      requires 0 < s.size && 0 < n
    {
      Quot(s.size, offset + n - 1) + 1
    }

    /** There is a free slot for every block of the range that has none. */
    ghost predicate HasRoom(offset: nat, n: nat)
      requires 0 < s.size && 0 < n && Blocks(offset, n) <= |blockMap|
      reads this
    {
      used + Unplain(blockMap, Quot(s.size, offset), Blocks(offset, n)) <= |blockMap|
    }

    /** `nextufs_vdi_backend_write`. */
    method Write(offset: nat, data: seq<Byte>) returns (r: Outcome)
      requires Valid()
      modifies this
      ensures Valid() && old(history) <= history
      ensures old(failed) ==> r == Error(EUCLEAN) && View() == old(View()) && history == old(history)
      ensures offset + |data| > s.disk ==> !r.Done? && View() == old(View())
      ensures offset + |data| > s.disk && !old(failed) ==> r == Error(EIO)
      ensures old(tick) <= tick && (r.Done? ==> Fine(old(tick), tick))
      ensures !old(failed) && 0 < |data| && offset + |data| <= s.disk ==>
        && Blocks(offset, |data|) <= |old(blockMap)|
        && (Fine(old(tick), tick) ==> r == if old(HasRoom(offset, |data|)) then Done else Error(ENOSPC))
        && (r == Error(ENOSPC) ==> !old(HasRoom(offset, |data|)))
      ensures !old(failed) && data == [] && offset <= s.disk ==> r.Done?
      ensures r.Done? ==> offset + |data| <= s.disk && View() == Put(old(View()), offset, data) && !failed
      ensures r.Error? && offset + |data| <= s.disk ==> Torn(old(View()), View(), offset, data)
      ensures failed && !old(failed) ==> r == Error(EUCLEAN)
      ensures forall i | |old(history)| <= i < |history| && !Accepted(history[i]) :: i == |history| - 1 && failed
    {
      hide Guest, MapOk, Sized, Accepted, Torn, Put, Fits, Unplain, Quot, Times, Plain;
      TornNothing(View(), offset, data);
      if failed {
        return Error(EUCLEAN);
      }
      if offset + |data| > s.disk {
        return Error(EIO);
      }
      ghost var v0, h0 := View(), history;
      LastInside(offset, |data|);
      ghost var hi := if data == [] then 0 else Blocks(offset, |data|);
      ghost var need := used + if data == [] then 0 else Unplain(blockMap, Quot(s.size, offset), hi);
      var n: nat := 0;
      PutNone(v0, offset, data);
      while n < |data|
        invariant n <= |data| && Valid() && !failed && h0 <= history
        invariant View() == Put(v0, offset, data[..n])
        invariant forall i | |h0| <= i < |history| :: Accepted(history[i])
        invariant old(tick) <= tick && Fine(old(tick), tick) && |blockMap| == |old(blockMap)| && hi <= |blockMap|
        invariant n < |data| ==> need == used + Unplain(blockMap, Quot(s.size, offset + n), hi)
        invariant n == |data| > 0 ==> need <= |blockMap|
      {
        var size := 0;
        ghost var v, m := View(), blockMap;
        r, size := WriteChunk(offset + n, data[n..]);
        Before(offset + n, offset + |data|);
        UnplainStep(m, blockMap, Quot(s.size, offset + n), hi);
        if !r.Done? {
          TornTail(v0, v, View(), offset, data, n);
          return;
        }
        Turn(s.size, offset + n, size, offset + |data|);
        PutMore(v0, offset, data, n, size);
        assert data[n..][..size] == data[n..n + size];
        n := n + size;
      }
      assert data[..n] == data;
      r := Done;
    }
  }

  lemma {:induction false} AllocatableNow(s: Shape, f: File, b: nat)
    requires Fits(s, |f.map_|) && |f.map_| <= MAX_BLOCKS && MapOk(f.map_, f.count) && b < |f.map_| && !Plain(f.map_[b])
    requires f.count < |f.map_| && f.count < |f.slots|
    ensures Allocatable(f, b)
  {
  }

  /** Until a write fails beyond repair, the file can be reopened and shows what the backend shows. */
  lemma {:induction false} Reopens(v: Vdi)
    requires v.Valid() && !v.failed
    ensures Accepted(v.file) && Fits(v.s, |v.file.map_|) && Sized(v.s, v.file.slots)
    ensures MapOk(v.file.map_, |v.file.slots|) && Guest(v.s, v.file.map_, v.file.slots) == v.View()
  {
    MapWiden(v.blockMap, v.used, |v.file.slots|);
  }

  /** The loop over the block map when an image is opened. */
  method CheckMap(m: seq<nat>, count: nat) returns (ok: bool)
    requires count <= MAX_BLOCKS
    ensures ok <==> MapOk(m, count)
  {
    var seen := seq(count, _ => false);
    var i := 0;
    while i < |m|
      invariant i <= |m| && |seen| == count
      invariant MapOk(m[..i], count)
      invariant forall e | 0 <= e < count :: seen[e] <==> e in m[..i]
    {
      var e := m[i];
      assert m[..i + 1] == m[..i] + [e];
      if Plain(e) {
        if e >= count || seen[e] {
          MapBad(m, count, i);
          return false;
        }
        seen := seen[e := true];
      }
      i := i + 1;
    }
    assert m[..i] == m;
    ok := true;
  }

  lemma {:induction false} MapBad(m: seq<nat>, count: nat, i: nat)
    requires i < |m| && Plain(m[i]) && (m[i] >= count || m[i] in m[..i])
    ensures !MapOk(m, count)
  {
    if m[i] in m[..i] {
      var j :| 0 <= j < i && m[..i][j] == m[i];
      assert m[j] == m[i];
    }
  }
}
