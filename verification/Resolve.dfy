/** The two lookups of a file block: the allocator's and the reader's. Both walk the index blocks on
    disk and check every pointer they follow. */
module Resolve {
  import opened Scale
  import opened Volume
  import opened BlockTree
  import opened IndirectBlocks
  import opened Files

  datatype Result<+T> = Ok(value: T) | Err(error: Errno)

  function ReadEntry(l: Layout, d: seq<Byte>, x: nat, e: nat): Result<nat>
    requires ValidLayout(l) && OnDisk(l, d)
  {
    if e >= l.entries || x == 0 || x + l.g.frag > l.fragCount then Err(Einval) else Ok(Words(l, d, x)[e])
  }

  // ----- allocator -----

  function ResolveTree(l: Layout, d: seq<Byte>, x: nat, level: nat, idx: nat): Result<nat>
    requires ValidLayout(l) && OnDisk(l, d) && 0 < level
    decreases level
  {
    if x == 0 then Ok(0)
    else if level == 1 then ReadEntry(l, d, x, idx)
    else
      var span := Span(l.entries, level - 1);
      var e := Quot(span, idx);
      match ReadEntry(l, d, x, e)
      case Err(error) => Err(error)
      case Ok(next) => ResolveTree(l, d, next, level - 1, idx - Times(span, e))
  }

  function ResolveBlock(l: Layout, d: seq<Byte>, db: seq<nat>, ib: seq<nat>, b: nat): Result<nat>
    requires ValidLayout(l) && OnDisk(l, d) && |db| == DIRECT && |ib| == 3
  {
    match Where(l.entries, b)
    case Direct(i) => Ok(db[i])
    case Indirect(slot, idx) => ResolveTree(l, d, ib[slot], slot + 1, idx)
    case Beyond => Err(Efbig)
  }

  // ----- reader -----

  function ReadTree(l: Layout, d: seq<Byte>, x: nat, level: nat, idx: nat): Result<nat>
    requires ValidLayout(l) && OnDisk(l, d)
    decreases level
  {
    if level == 0 then Err(Einval)
    else if x == 0 then Ok(0)
    else
      var span := Span(l.entries, level - 1);
      var e := Quot(span, idx);
      match ReadEntry(l, d, x, e)
      case Err(_) => Err(Eio)
      case Ok(next) =>
        if level == 1 then Ok(next)
        else if next == 0 then Ok(0)
        else ReadTree(l, d, next, level - 1, idx - Times(span, e))
  }

  function ReadBlock(l: Layout, d: seq<Byte>, db: seq<nat>, ib: seq<nat>, b: nat): Result<nat>
    requires ValidLayout(l) && OnDisk(l, d) && |db| == DIRECT && |ib| == 3
  {
    match Where(l.entries, b)
    case Direct(i) => Ok(db[i])
    case Indirect(slot, idx) => ReadTree(l, d, ib[slot], slot + 1, idx)
    case Beyond => Err(Einval)
  }

  // ----- agreement -----

  predicate Agree(a: Result<nat>, b: Result<nat>) {
    match a
    case Ok(x) => b == Ok(x)
    case Err(_) => b.Err?
  }

  lemma {:induction false} TreesAgree(l: Layout, d: seq<Byte>, x: nat, level: nat, idx: nat)
    requires ValidLayout(l) && OnDisk(l, d) && 0 < level
    ensures Agree(ResolveTree(l, d, x, level, idx), ReadTree(l, d, x, level, idx))
    decreases level
  {
    if x != 0 {
      var span := Span(l.entries, level - 1);
      var e := Quot(span, idx);
      if level == 1 {
        OneTimes(idx);
        QuotUnique(1, idx, 0);
      } else if ReadEntry(l, d, x, e).Ok? {
        TreesAgree(l, d, ReadEntry(l, d, x, e).value, level - 1, idx - Times(span, e));
      }
    }
  }

  /** On every disk, sound or not, the two lookups fail together and otherwise agree. */
  lemma ResolversAgree(l: Layout, d: seq<Byte>, db: seq<nat>, ib: seq<nat>, b: nat)
    requires ValidLayout(l) && OnDisk(l, d) && |db| == DIRECT && |ib| == 3
    ensures Agree(ResolveBlock(l, d, db, ib, b), ReadBlock(l, d, db, ib, b))
  {
    var w := Where(l.entries, b);
    if w.Indirect? {
      TreesAgree(l, d, ib[w.slot], w.slot + 1, w.idx);
    }
  }

  /** On a sound tree the lookup is the tree's own. */
  lemma {:induction false} ResolveGet(l: Layout, d: seq<Byte>, x: nat, level: nat, idx: nat)
    requires ValidLayout(l) && OnDisk(l, d) && 0 < level && idx < Span(l.entries, level)
    requires Sound(l, Load(l, d, x, level), level)
    ensures ResolveTree(l, d, x, level, idx) == Ok(Get(l.entries, Load(l, d, x, level), level, idx))
    decreases level
  {
    if x != 0 {
      InsideSlice(l, x, l.g.frag);
      var t := Load(l, d, x, level);
      var e := Slot(l.entries, level, idx);
      if level == 1 {
        LastSlot(l.entries, idx);
      } else {
        assert t.kids[e] == Load(l, d, Words(l, d, x)[e], level - 1);
        ResolveGet(l, d, Words(l, d, x)[e], level - 1, Rest(l.entries, level, idx));
      }
    }
  }

  lemma ResolveExact(l: Layout, d: seq<Byte>, db: seq<nat>, ib: seq<nat>, lens: seq<nat>, b: nat)
    requires ValidLayout(l) && OnDisk(l, d) && |db| == DIRECT && |ib| == 3 && Shaped(l, FileOf(l, d, db, ib), lens)
    ensures ResolveBlock(l, d, db, ib, b)
         == if Where(l.entries, b).Beyond? then Err(Efbig) else Ok(Block(l.entries, FileOf(l, d, db, ib), b))
  {
    var w := Where(l.entries, b);
    if w.Indirect? {
      assert Sound(l, FileOf(l, d, db, ib).trees[w.slot], w.slot + 1);
      ResolveGet(l, d, ib[w.slot], w.slot + 1, w.idx);
    }
  }
}
