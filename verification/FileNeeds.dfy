/** What growing a file takes: the fragments asked for at each block, and the index blocks that the paths
    to these blocks lack, each counted once. */
module FileNeeds {
  import opened Scale
  import opened Volume
  import opened BlockTree
  import opened Files

  // ----- lacking index blocks -----

  /** The index blocks that the path to entry `idx` lacks, named by the entries that lead to them; `at` leads
      to the tree itself. */
  function Nodes(n: nat, t: Tree, level: nat, idx: nat, at: seq<nat>): set<seq<nat>>
    requires 0 < n && idx < Span(n, level)
    decreases level
  {
    if level == 0 then {}
    else
      var e, r := Slot(n, level, idx), Rest(n, level, idx);
      match t
      case Leaf(_) => {}
      case Hole => {at} + Nodes(n, Hole, level - 1, r, at + [e])
      case Index(_, kids) => if |kids| != n then {} else Nodes(n, kids[e], level - 1, r, at + [e])
  }

  function FileNodes(n: nat, f: File, b: nat): set<seq<nat>>
    requires 0 < n && |f.trees| == 3
  {
    match Where(n, b)
    case Indirect(slot, idx) => Nodes(n, f.trees[slot], slot + 1, idx, [slot])
    case _ => {}
  }

  /** Those of all blocks from `lo` on, before `hi`. */
  function Lacking(n: nat, f: File, lo: nat, hi: nat): set<seq<nat>>
    requires 0 < n && |f.trees| == 3
    decreases hi
  {
    if hi <= lo then {} else Lacking(n, f, lo, hi - 1) + FileNodes(n, f, hi - 1)
  }

  lemma {:induction false} NodesBelow(n: nat, t: Tree, level: nat, idx: nat, at: seq<nat>, p: seq<nat>)
    requires 0 < n && idx < Span(n, level) && p in Nodes(n, t, level, idx, at)
    ensures at <= p
    decreases level
  {
    var e, r := Slot(n, level, idx), Rest(n, level, idx);
    match t
    case Leaf(_) =>
    case Hole =>
      if p != at {
        NodesBelow(n, Hole, level - 1, r, at + [e], p);
      }
    case Index(_, kids) =>
      NodesBelow(n, kids[e], level - 1, r, at + [e], p);
  }

  lemma {:induction false} NodesSize(n: nat, t: Tree, level: nat, idx: nat, at: seq<nat>)
    requires 0 < n && idx < Span(n, level)
    ensures |Nodes(n, t, level, idx, at)| == Missing(n, t, level, idx)
    decreases level
  {
    if level > 0 {
      var e, r := Slot(n, level, idx), Rest(n, level, idx);
      match t
      case Leaf(_) =>
      case Hole =>
        NodesSize(n, Hole, level - 1, r, at + [e]);
        if at in Nodes(n, Hole, level - 1, r, at + [e]) {
          NodesBelow(n, Hole, level - 1, r, at + [e], at);
        }
      case Index(_, kids) =>
        if |kids| == n {
          NodesSize(n, kids[e], level - 1, r, at + [e]);
        }
    }
  }

  /** Nodes behind different entries are different. */
  lemma {:induction false} NodesApart(n: nat, t: Tree, u: Tree, level: nat, i: nat, j: nat, at: seq<nat>, d: nat, e: nat)
    requires 0 < n && i < Span(n, level) && j < Span(n, level) && d != e
    ensures Nodes(n, t, level, i, at + [d]) !! Nodes(n, u, level, j, at + [e])
  {
    forall p | p in Nodes(n, t, level, i, at + [d])
      ensures |at| < |p| && p[|at|] == d
    {
      NodesBelow(n, t, level, i, at + [d], p);
      assert (at + [d])[|at|] == d;
    }
    forall p | p in Nodes(n, u, level, j, at + [e])
      ensures |at| < |p| && p[|at|] == e
    {
      NodesBelow(n, u, level, j, at + [e], p);
      assert (at + [e])[|at|] == e;
    }
  }

  /** Storing a pointer adds the index blocks of its own path, and no other block lacks these any more. */
  lemma {:induction false} NodesGraft(l: Layout, t: Tree, level: nat, idx: nat, leaf: nat, extra: seq<nat>, j: nat, at: seq<nat>)
    requires ValidLayout(l) && Sound(l, t, level) && idx < Span(l.entries, level) && j < Span(l.entries, level)
    requires |extra| == Missing(l.entries, t, level, idx) && forall f | f in extra :: BlockOk(l, f)
    ensures Nodes(l.entries, Graft(l.entries, t, level, idx, leaf, extra), level, j, at)
         == Nodes(l.entries, t, level, j, at) - Nodes(l.entries, t, level, idx, at)
    decreases level, if t.Hole? then 2 else 1
  {
    var n := l.entries;
    if level > 0 {
      if t.Hole? {
        BlankSound(l, extra[0], level);
        NodesGraft(l, Blank(n, extra[0]), level, idx, leaf, extra[1..], j, at);
        BlankNodes(n, extra[0], level, idx, at);
        BlankNodes(n, extra[0], level, j, at);
      } else {
        KidNodes(l, t, level, idx, leaf, extra, j, at);
      }
    }
  }

  lemma {:induction false} KidNodes(l: Layout, t: Tree, level: nat, idx: nat, leaf: nat, extra: seq<nat>, j: nat, at: seq<nat>)
    requires ValidLayout(l) && Sound(l, t, level) && 0 < level && t.Index?
    requires idx < Span(l.entries, level) && j < Span(l.entries, level)
    requires |extra| == Missing(l.entries, t, level, idx) && forall f | f in extra :: BlockOk(l, f)
    ensures Nodes(l.entries, Graft(l.entries, t, level, idx, leaf, extra), level, j, at)
         == Nodes(l.entries, t, level, j, at) - Nodes(l.entries, t, level, idx, at)
    decreases level, 0
  {
    var n := l.entries;
    var e, d := Slot(n, level, idx), Slot(n, level, j);
    if d == e {
      NodesGraft(l, t.kids[e], level - 1, Rest(n, level, idx), leaf, extra, Rest(n, level, j), at + [e]);
    } else {
      NodesApart(n, t.kids[d], t.kids[e], level - 1, Rest(n, level, j), Rest(n, level, idx), at, d, e);
    }
  }

  /** A blank index block takes one node off every path. */
  lemma {:induction false} BlankNodes(n: nat, x: nat, level: nat, idx: nat, at: seq<nat>)
    requires 0 < n && 0 < level && idx < Span(n, level)
    ensures Nodes(n, Blank(n, x), level, idx, at) == Nodes(n, Hole, level, idx, at) - {at}
  {
    var e, r := Slot(n, level, idx), Rest(n, level, idx);
    if at in Nodes(n, Hole, level - 1, r, at + [e]) {
      NodesBelow(n, Hole, level - 1, r, at + [e], at);
    }
  }

  lemma {:induction false} FileNodesSize(n: nat, f: File, b: nat)
    requires 0 < n && |f.db| == DIRECT && |f.trees| == 3
    ensures |FileNodes(n, f, b)| == MissingIn(n, f, b)
  {
    var w := Where(n, b);
    if w.Indirect? {
      NodesSize(n, f.trees[w.slot], w.slot + 1, w.idx, [w.slot]);
    }
  }

  lemma {:induction false} FileNodesWith(l: Layout, f: File, lens: seq<nat>, b: nat, leaf: nat, extra: seq<nat>, j: nat)
    requires ValidLayout(l) && Shaped(l, f, lens) && !Where(l.entries, b).Beyond?
    requires |extra| == MissingIn(l.entries, f, b) && forall x | x in extra :: BlockOk(l, x)
    ensures var f' := WithBlock(l.entries, f, b, leaf, extra);
      |f'.trees| == 3 && FileNodes(l.entries, f', j) == FileNodes(l.entries, f, j) - FileNodes(l.entries, f, b)
  {
    hide Graft, Missing, Nodes, Sound, Span;
    var n := l.entries;
    var w, u := Where(n, b), Where(n, j);
    if w.Indirect? && u.Indirect? {
      if w.slot == u.slot {
        NodesGraft(l, f.trees[w.slot], w.slot + 1, w.idx, leaf, extra, u.idx, [w.slot]);
      } else {
        SlotsApart(n, f, b, j);
      }
    }
  }

  lemma {:induction false} SlotsApart(n: nat, f: File, b: nat, j: nat)
    requires 0 < n && |f.trees| == 3 && Where(n, b).Indirect? && Where(n, j).Indirect? && Where(n, b).slot != Where(n, j).slot
    ensures FileNodes(n, f, b) !! FileNodes(n, f, j)
  {
    var w, u := Where(n, b), Where(n, j);
    forall p | p in FileNodes(n, f, b)
      ensures 0 < |p| && p[0] == w.slot
    {
      NodesBelow(n, f.trees[w.slot], w.slot + 1, w.idx, [w.slot], p);
    }
    forall p | p in FileNodes(n, f, j)
      ensures 0 < |p| && p[0] == u.slot
    {
      NodesBelow(n, f.trees[u.slot], u.slot + 1, u.idx, [u.slot], p);
    }
  }

  /** The index blocks `gone` have been added to the file. */
  ghost predicate NodesLess(n: nat, f: File, f': File, gone: set<seq<nat>>)
    requires 0 < n && |f.trees| == 3 && |f'.trees| == 3
  {
    forall j: nat :: FileNodes(n, f', j) == FileNodes(n, f, j) - gone
  }

  lemma {:induction false} LackingLess(n: nat, f: File, f': File, gone: set<seq<nat>>, lo: nat, hi: nat)
    requires 0 < n && |f.trees| == 3 && |f'.trees| == 3 && NodesLess(n, f, f', gone)
    ensures Lacking(n, f', lo, hi) == Lacking(n, f, lo, hi) - gone
    decreases hi
  {
    hide FileNodes;
    if lo < hi {
      LackingLess(n, f, f', gone, lo, hi - 1);
      assert FileNodes(n, f', hi - 1) == FileNodes(n, f, hi - 1) - gone;
    }
  }

  lemma {:induction false} LackingHas(n: nat, f: File, lo: nat, hi: nat, b: nat)
    requires 0 < n && |f.trees| == 3 && lo <= b < hi
    ensures FileNodes(n, f, b) <= Lacking(n, f, lo, hi)
    decreases hi
  {
    hide FileNodes;
    if b < hi - 1 {
      LackingHas(n, f, lo, hi - 1, b);
    }
  }

  /** Adding the index blocks for one block of the range leaves that many less to add. */
  lemma {:induction false} LackingDrops(n: nat, f: File, f': File, lo: nat, hi: nat, b: nat)
    requires 0 < n && |f.trees| == 3 && |f'.trees| == 3 && NodesLess(n, f, f', FileNodes(n, f, b))
    ensures lo <= b < hi ==> |Lacking(n, f', lo, hi)| + |FileNodes(n, f, b)| == |Lacking(n, f, lo, hi)|
  {
    hide FileNodes, Lacking, NodesLess;
    if lo <= b < hi {
      LackingLess(n, f, f', FileNodes(n, f, b), lo, hi);
      LackingHas(n, f, lo, hi, b);
      Minus(Lacking(n, f, lo, hi), FileNodes(n, f, b));
    }
  }

  lemma {:induction false} Minus<T>(a: set<T>, b: set<T>)
    requires b <= a
    ensures |a - b| + |b| == |a|
  {
    assert a == (a - b) + b;
  }

  // ----- data fragments -----

  /** The fragments asked for at block `b` when the file goes from size `s` to size `s'`: a run of the new
      length, unless the block keeps its length. */
  function Ask(l: Layout, f: File, s: nat, s': nat, b: nat): (n: nat)
    requires ValidLayout(l) && |f.db| == DIRECT && |f.trees| == 3
    ensures n <= l.g.frag
  {
    if Block(l.entries, f, b) != 0 && FileFrags(l, s, b) == FileFrags(l, s', b) then 0 else FileFrags(l, s', b)
  }

  /** One run, or none. */
  function Runs(n: nat): nat {
    if n == 0 then 0 else 1
  }

  /** What filling block `b` alone takes. */
  function OneBlocks(l: Layout, f: File, s: nat, s': nat, b: nat): nat
    requires ValidLayout(l) && |f.db| == DIRECT && |f.trees| == 3
  {
    Runs(Ask(l, f, s, s', b)) + |FileNodes(l.entries, f, b)|
  }

  function OneFrags(l: Layout, f: File, s: nat, s': nat, b: nat): nat
    requires ValidLayout(l) && |f.db| == DIRECT && |f.trees| == 3
  {
    Ask(l, f, s, s', b) + Times(l.g.frag, |FileNodes(l.entries, f, b)|)
  }

  /** The lengths of the runs that filling block `b` asks for. */
  function Lengths(l: Layout, f: File, s: nat, s': nat, b: nat): set<nat>
    requires ValidLayout(l) && |f.db| == DIRECT && |f.trees| == 3
  {
    IfAny(Ask(l, f, s, s', b), Ask(l, f, s, s', b)) + IfAny(l.g.frag, |FileNodes(l.entries, f, b)|)
  }

  /** Those of the blocks `[lo, hi)`. */
  function LengthsIn(l: Layout, f: File, s: nat, s': nat, lo: nat, hi: nat): set<nat>
    requires ValidLayout(l) && |f.db| == DIRECT && |f.trees| == 3
    decreases hi
  {
    if hi <= lo then {} else LengthsIn(l, f, s, s', lo, hi - 1) + Lengths(l, f, s, s', hi - 1)
  }

  function AskRuns(l: Layout, f: File, s: nat, s': nat, lo: nat, hi: nat): nat
    requires ValidLayout(l) && |f.db| == DIRECT && |f.trees| == 3
    decreases hi
  {
    if hi <= lo then 0 else AskRuns(l, f, s, s', lo, hi - 1) + Runs(Ask(l, f, s, s', hi - 1))
  }

  function AskFrags(l: Layout, f: File, s: nat, s': nat, lo: nat, hi: nat): nat
    requires ValidLayout(l) && |f.db| == DIRECT && |f.trees| == 3
    decreases hi
  {
    if hi <= lo then 0 else AskFrags(l, f, s, s', lo, hi - 1) + Ask(l, f, s, s', hi - 1)
  }

  /** What the block that held the old end of the file asks for, when it is not one of `[lo, hi)`: it must
      become a full block. A hole stays a hole. */
  function TailAsk(l: Layout, f: File, s: nat, s': nat, lo: nat, hi: nat): nat
    requires ValidLayout(l) && |f.db| == DIRECT && |f.trees| == 3
  {
    var tail := Quot(BlockBytes(l), s);
    if lo <= tail < hi || Block(l.entries, f, tail) == 0 then 0 else Ask(l, f, s, s', tail)
  }

  /** The lengths of the runs that filling the blocks `[lo, hi)` asks for, the old tail's included. */
  function NeedLengths(l: Layout, f: File, s: nat, s': nat, lo: nat, hi: nat): set<nat>
    requires ValidLayout(l) && |f.db| == DIRECT && |f.trees| == 3
  {
    IfAny(TailAsk(l, f, s, s', lo, hi), TailAsk(l, f, s, s', lo, hi)) + LengthsIn(l, f, s, s', lo, hi)
  }

  /** The runs and index blocks that are needed to fill the blocks `[lo, hi)` of the file as it goes from
      size `s` to size `s'`. */
  function NeedBlocks(l: Layout, f: File, s: nat, s': nat, lo: nat, hi: nat): nat
    requires ValidLayout(l) && |f.db| == DIRECT && |f.trees| == 3
  {
    Runs(TailAsk(l, f, s, s', lo, hi)) + AskRuns(l, f, s, s', lo, hi) + |Lacking(l.entries, f, lo, hi)|
  }

  /** The fragments in them. */
  function NeedFrags(l: Layout, f: File, s: nat, s': nat, lo: nat, hi: nat): nat
    requires ValidLayout(l) && |f.db| == DIRECT && |f.trees| == 3
  {
    TailAsk(l, f, s, s', lo, hi) + AskFrags(l, f, s, s', lo, hi) + Times(l.g.frag, |Lacking(l.entries, f, lo, hi)|)
  }

  /** Blocks `b` and `c` have been filled: they ask for nothing now, and no block asks for more than before. */
  ghost predicate AsksLess(l: Layout, f: File, s: nat, f': File, s1: nat, s': nat, b: nat, c: nat)
    requires ValidLayout(l) && |f.db| == |f'.db| == DIRECT && |f.trees| == |f'.trees| == 3
  {
    && Ask(l, f', s1, s', b) == 0 && Ask(l, f', s1, s', c) == 0
    && forall j: nat :: Ask(l, f', s1, s', j) <= Ask(l, f, s, s', j)
  }

  /** What block `b` asks for, if it is one of `[lo, hi)`. */
  function AskIn(l: Layout, f: File, s: nat, s': nat, lo: nat, hi: nat, b: nat): nat
    requires ValidLayout(l) && |f.db| == DIRECT && |f.trees| == 3
  {
    if lo <= b < hi then Ask(l, f, s, s', b) else 0
  }

  lemma {:induction false} AskDrops(l: Layout, f: File, s: nat, f': File, s1: nat, s': nat, b: nat, c: nat, lo: nat, hi: nat)
    requires ValidLayout(l) && |f.db| == |f'.db| == DIRECT && |f.trees| == |f'.trees| == 3
    requires AsksLess(l, f, s, f', s1, s', b, c)
    ensures var x, y := AskIn(l, f, s, s', lo, hi, b), if b == c then 0 else AskIn(l, f, s, s', lo, hi, c);
      && AskRuns(l, f', s1, s', lo, hi) + Runs(x) + Runs(y) <= AskRuns(l, f, s, s', lo, hi)
      && AskFrags(l, f', s1, s', lo, hi) + x + y <= AskFrags(l, f, s, s', lo, hi)
    decreases hi
  {
    hide Ask;
    if lo < hi {
      AskDrops(l, f, s, f', s1, s', b, c, lo, hi - 1);
      assert Ask(l, f', s1, s', hi - 1) <= Ask(l, f, s, s', hi - 1);
    }
  }

  lemma {:induction false} AskLater(l: Layout, f: File, s: nat, s': nat, lo: nat, hi: nat)
    requires ValidLayout(l) && |f.db| == DIRECT && |f.trees| == 3
    ensures AskRuns(l, f, s, s', lo + 1, hi) <= AskRuns(l, f, s, s', lo, hi)
    ensures AskFrags(l, f, s, s', lo + 1, hi) <= AskFrags(l, f, s, s', lo, hi)
    ensures Lacking(l.entries, f, lo + 1, hi) <= Lacking(l.entries, f, lo, hi)
    decreases hi
  {
    hide Ask, FileNodes;
    if lo < hi {
      AskLater(l, f, s, s', lo, hi - 1);
    }
  }

  lemma {:induction false} SmallerSet<T>(a: set<T>, b: set<T>)
    requires a <= b
    ensures |a| <= |b|
  {
    Minus(b, a);
  }

  lemma {:induction false} TimesOf(f: nat, a: nat, b: nat, c: nat)
    requires a + b <= c
    ensures Times(f, a) + Times(f, b) <= Times(f, c)
  {
    TimesAdd(f, a, b);
    TimesAdd(f, a + b, c - (a + b));
  }

  /** A block that is there lacks no index block. */
  lemma {:induction false} GetNodes(n: nat, t: Tree, level: nat, idx: nat, at: seq<nat>)
    requires 0 < n && idx < Span(n, level) && Get(n, t, level, idx) != 0
    ensures Nodes(n, t, level, idx, at) == {}
    decreases level
  {
    if level > 0 && t.Index? && |t.kids| == n {
      var e := Slot(n, level, idx);
      GetNodes(n, t.kids[e], level - 1, Rest(n, level, idx), at + [e]);
    }
  }

  lemma {:induction false} BlockNodes(n: nat, f: File, b: nat)
    requires 0 < n && |f.db| == DIRECT && |f.trees| == 3 && Block(n, f, b) != 0
    ensures FileNodes(n, f, b) == {}
  {
    var w := Where(n, b);
    if w.Indirect? {
      GetNodes(n, f.trees[w.slot], w.slot + 1, w.idx, [w.slot]);
    }
  }

  /** The need of one block. */
  lemma {:induction false} NeedOne(l: Layout, f: File, s: nat, s': nat, b: nat)
    requires ValidLayout(l) && |f.db| == DIRECT && |f.trees| == 3
    ensures NeedBlocks(l, f, s, s', b, b + 1) == Runs(TailAsk(l, f, s, s', b, b + 1)) + OneBlocks(l, f, s, s', b)
    ensures NeedFrags(l, f, s, s', b, b + 1) == TailAsk(l, f, s, s', b, b + 1) + OneFrags(l, f, s, s', b)
  {
    hide Ask, FileNodes, TailAsk;
    assert Lacking(l.entries, f, b, b) == {} && AskRuns(l, f, s, s', b, b) == 0 && AskFrags(l, f, s, s', b, b) == 0;
    assert Lacking(l.entries, f, b, b + 1) == FileNodes(l.entries, f, b);
  }

  /** The blocks of `f'` are those of `f`, with block `b` filled. */
  ghost predicate FilledFile(l: Layout, f: File, f': File, b: nat)
    requires ValidLayout(l) && |f.db| == |f'.db| == DIRECT && |f.trees| == |f'.trees| == 3
  {
    && Block(l.entries, f', b) != 0
    && (forall j: nat | j != b :: Block(l.entries, f', j) == 0 <==> Block(l.entries, f, j) == 0)
    && NodesLess(l.entries, f, f', FileNodes(l.entries, f, b))
  }

  lemma {:induction false} FilledAsks(l: Layout, f: File, s: nat, f': File, s': nat, b: nat, c: nat)
    requires ValidLayout(l) && |f.db| == |f'.db| == DIRECT && |f.trees| == |f'.trees| == 3
    requires FilledFile(l, f, f', b) && (c == b || Block(l.entries, f, c) != 0)
    ensures AsksLess(l, f, s, f', s', s', b, c)
  {
    hide Block, FileNodes, FileFrags, NodesLess;
    assert c != b ==> (Block(l.entries, f', c) == 0 <==> Block(l.entries, f, c) == 0);
    forall j: nat
      ensures Ask(l, f', s', s', j) <= Ask(l, f, s, s', j)
    {
      assert j != b ==> (Block(l.entries, f', j) == 0 <==> Block(l.entries, f, j) == 0);
    }
  }

  /** A hole at the start of the range has been filled: what it took is no longer needed. */
  lemma {:induction false} NeedStep(l: Layout, f: File, f': File, s: nat, lo: nat, hi: nat)
    requires ValidLayout(l) && |f.db| == |f'.db| == DIRECT && |f.trees| == |f'.trees| == 3
    requires FilledFile(l, f, f', lo) && lo < hi
    ensures NeedBlocks(l, f', s, s, lo + 1, hi) + OneBlocks(l, f, s, s, lo) <= NeedBlocks(l, f, s, s, lo, hi)
    ensures NeedFrags(l, f', s, s, lo + 1, hi) + OneFrags(l, f, s, s, lo) <= NeedFrags(l, f, s, s, lo, hi)
  {
    hide Ask, FileNodes, Lacking, AskRuns, AskFrags, Block, Times, AsksLess, NodesLess;
    FilledAsks(l, f, s, f', s, lo, lo);
    AskDrops(l, f, s, f', s, s, lo, lo, lo, hi);
    AskLater(l, f', s, s, lo, hi);
    SmallerSet(Lacking(l.entries, f', lo + 1, hi), Lacking(l.entries, f', lo, hi));
    LackingDrops(l.entries, f, f', lo, hi, lo);
    TimesOf(l.g.frag, |Lacking(l.entries, f', lo + 1, hi)|, |FileNodes(l.entries, f, lo)|, |Lacking(l.entries, f, lo, hi)|);
    NoTail(l, f', s, lo + 1, hi);
  }

  lemma {:induction false} AskHas(l: Layout, f: File, s: nat, s': nat, lo: nat, hi: nat, b: nat)
    requires ValidLayout(l) && |f.db| == DIRECT && |f.trees| == 3 && lo <= b < hi
    ensures Runs(Ask(l, f, s, s', b)) <= AskRuns(l, f, s, s', lo, hi) && Ask(l, f, s, s', b) <= AskFrags(l, f, s, s', lo, hi)
    decreases hi
  {
    hide Ask;
    if b < hi - 1 {
      AskHas(l, f, s, s', lo, hi - 1, b);
    }
  }

  /** One block of the range needs no more than the range. */
  lemma {:induction false} NeedHas(l: Layout, f: File, s: nat, lo: nat, hi: nat)
    requires ValidLayout(l) && |f.db| == DIRECT && |f.trees| == 3 && lo < hi
    ensures OneBlocks(l, f, s, s, lo) <= NeedBlocks(l, f, s, s, lo, hi)
    ensures OneFrags(l, f, s, s, lo) <= NeedFrags(l, f, s, s, lo, hi)
  {
    hide Ask, FileNodes, Lacking, AskRuns, AskFrags, Times;
    AskHas(l, f, s, s, lo, hi, lo);
    LackingHas(l.entries, f, lo, hi, lo);
    SmallerSet(FileNodes(l.entries, f, lo), Lacking(l.entries, f, lo, hi));
    TimesOf(l.g.frag, |FileNodes(l.entries, f, lo)|, 0, |Lacking(l.entries, f, lo, hi)|);
  }

  /** The last block of the range and the old tail need no more than the range. */
  lemma {:induction false} NeedLast(l: Layout, f: File, s: nat, s': nat, lo: nat, hi: nat)
    requires ValidLayout(l) && |f.db| == DIRECT && |f.trees| == 3 && lo < hi
    ensures NeedBlocks(l, f, s, s', hi - 1, hi) <= NeedBlocks(l, f, s, s', lo, hi)
    ensures NeedFrags(l, f, s, s', hi - 1, hi) <= NeedFrags(l, f, s, s', lo, hi)
    decreases hi - lo
  {
    hide Ask, FileNodes, Lacking, AskRuns, AskFrags, Times, TailAsk;
    if lo < hi - 1 {
      NeedLast(l, f, s, s', lo + 1, hi);
      NeedWider(l, f, s, s', lo, hi);
    }
  }

  lemma {:induction false} NeedWider(l: Layout, f: File, s: nat, s': nat, lo: nat, hi: nat)
    requires ValidLayout(l) && |f.db| == DIRECT && |f.trees| == 3 && lo < hi
    ensures NeedBlocks(l, f, s, s', lo + 1, hi) <= NeedBlocks(l, f, s, s', lo, hi)
    ensures NeedFrags(l, f, s, s', lo + 1, hi) <= NeedFrags(l, f, s, s', lo, hi)
  {
    hide Ask, FileNodes, Lacking, AskRuns, AskFrags, Times, Quot;
    AskFirst(l, f, s, s', lo, hi);
    AskLater(l, f, s, s', lo, hi);
    SmallerSet(Lacking(l.entries, f, lo + 1, hi), Lacking(l.entries, f, lo, hi));
    TimesOf(l.g.frag, |Lacking(l.entries, f, lo + 1, hi)|, 0, |Lacking(l.entries, f, lo, hi)|);
  }

  lemma {:induction false} AskFirst(l: Layout, f: File, s: nat, s': nat, lo: nat, hi: nat)
    requires ValidLayout(l) && |f.db| == DIRECT && |f.trees| == 3 && lo < hi
    ensures AskRuns(l, f, s, s', lo, hi) == Runs(Ask(l, f, s, s', lo)) + AskRuns(l, f, s, s', lo + 1, hi)
    ensures AskFrags(l, f, s, s', lo, hi) == Ask(l, f, s, s', lo) + AskFrags(l, f, s, s', lo + 1, hi)
    decreases hi
  {
    hide Ask;
    if lo + 1 < hi {
      AskFirst(l, f, s, s', lo, hi - 1);
    }
  }

  /** A hole asks for the same whatever the file's size was. */
  lemma {:induction false} HoleAsks(l: Layout, f: File, s: nat, t: nat, s': nat, b: nat)
    requires ValidLayout(l) && |f.db| == DIRECT && |f.trees| == 3 && Block(l.entries, f, b) == 0
    ensures OneBlocks(l, f, s, s', b) == OneBlocks(l, f, t, s', b) && OneFrags(l, f, s, s', b) == OneFrags(l, f, t, s', b)
  {
    hide Block, FileNodes, FileFrags;
  }

  lemma {:induction false} AlreadyFilled(l: Layout, f: File, b: nat)
    requires ValidLayout(l) && |f.db| == DIRECT && |f.trees| == 3 && Block(l.entries, f, b) != 0
    ensures FilledFile(l, f, f, b)
  {
    hide Block, FileNodes;
    BlockNodes(l.entries, f, b);
  }

  /** At one size no block asks for a longer run. */
  lemma {:induction false} NoTail(l: Layout, f: File, s: nat, lo: nat, hi: nat)
    requires ValidLayout(l) && |f.db| == DIRECT && |f.trees| == 3
    ensures TailAsk(l, f, s, s, lo, hi) == 0
  {
    hide Block, FileFrags;
  }

  /** A file has grown to its new size, which filled the last block of the range: what that took is no longer
      needed. */
  lemma {:induction false} NeedGrown(l: Layout, f: File, s: nat, f': File, s': nat, lo: nat, hi: nat)
    requires ValidLayout(l) && |f.db| == |f'.db| == DIRECT && |f.trees| == |f'.trees| == 3
    requires lo < hi && FilledFile(l, f, f', hi - 1)
    ensures NeedBlocks(l, f', s', s', lo, hi) + NeedBlocks(l, f, s, s', hi - 1, hi) <= NeedBlocks(l, f, s, s', lo, hi)
    ensures NeedFrags(l, f', s', s', lo, hi) + NeedFrags(l, f, s, s', hi - 1, hi) <= NeedFrags(l, f, s, s', lo, hi)
  {
    hide Ask, FileNodes, Lacking, AskRuns, AskFrags, Block, Times, AsksLess, NodesLess, Quot;
    var b, tail := hi - 1, Quot(BlockBytes(l), s);
    var c := if Block(l.entries, f, tail) == 0 then b else tail;
    FilledAsks(l, f, s, f', s', b, c);
    AskDrops(l, f, s, f', s', s', b, c, lo, hi);
    LackingDrops(l.entries, f, f', lo, hi, b);
    NeedOne(l, f, s, s', b);
    TimesOf(l.g.frag, |Lacking(l.entries, f', lo, hi)|, |FileNodes(l.entries, f, b)|, |Lacking(l.entries, f, lo, hi)|);
    NoTail(l, f', s', lo, hi);
  }

  // ----- the lengths asked for -----

  lemma {:induction false} LengthsHas(l: Layout, f: File, s: nat, s': nat, lo: nat, hi: nat, b: nat)
    requires ValidLayout(l) && |f.db| == DIRECT && |f.trees| == 3 && lo <= b < hi
    ensures Lengths(l, f, s, s', b) <= LengthsIn(l, f, s, s', lo, hi)
    decreases hi
  {
    hide Lengths;
    if b < hi - 1 {
      LengthsHas(l, f, s, s', lo, hi - 1, b);
    }
  }

  /** No block of `f'` asks for a length that it does not ask for in `f`. */
  ghost predicate LengthsLess(l: Layout, f: File, s: nat, f': File, s1: nat, s': nat)
    requires ValidLayout(l) && |f.db| == |f'.db| == DIRECT && |f.trees| == |f'.trees| == 3
  {
    forall j: nat :: Lengths(l, f', s1, s', j) <= Lengths(l, f, s, s', j)
  }

  lemma {:induction false} LengthsShrink(l: Layout, f: File, s: nat, f': File, s1: nat, s': nat, lo: nat, hi: nat)
    requires ValidLayout(l) && |f.db| == |f'.db| == DIRECT && |f.trees| == |f'.trees| == 3 && LengthsLess(l, f, s, f', s1, s')
    ensures LengthsIn(l, f', s1, s', lo, hi) <= LengthsIn(l, f, s, s', lo, hi)
    decreases hi
  {
    hide Lengths;
    if lo < hi {
      LengthsShrink(l, f, s, f', s1, s', lo, hi - 1);
      assert Lengths(l, f', s1, s', hi - 1) <= Lengths(l, f, s, s', hi - 1);
    }
  }

  /** Filling a block adds no length. */
  lemma {:induction false} FilledLengths(l: Layout, f: File, s: nat, f': File, s': nat, b: nat)
    requires ValidLayout(l) && |f.db| == |f'.db| == DIRECT && |f.trees| == |f'.trees| == 3 && FilledFile(l, f, f', b)
    ensures LengthsLess(l, f, s, f', s', s')
  {
    hide Block, FileNodes, FileFrags;
    forall j: nat
      ensures Lengths(l, f', s', s', j) <= Lengths(l, f, s, s', j)
    {
      assert j != b ==> (Block(l.entries, f', j) == 0 <==> Block(l.entries, f, j) == 0);
      assert FileNodes(l.entries, f', j) == FileNodes(l.entries, f, j) - FileNodes(l.entries, f, b);
    }
  }

  lemma {:induction false} LengthsLater(l: Layout, f: File, s: nat, s': nat, lo: nat, hi: nat)
    requires ValidLayout(l) && |f.db| == DIRECT && |f.trees| == 3
    ensures LengthsIn(l, f, s, s', lo + 1, hi) <= LengthsIn(l, f, s, s', lo, hi)
    decreases hi
  {
    hide Lengths;
    if lo + 1 < hi {
      LengthsLater(l, f, s, s', lo, hi - 1);
    }
  }

  /** A hole at the start of the range has been filled. */
  lemma {:induction false} LengthsStep(l: Layout, f: File, f': File, s: nat, lo: nat, hi: nat)
    requires ValidLayout(l) && |f.db| == |f'.db| == DIRECT && |f.trees| == |f'.trees| == 3 && FilledFile(l, f, f', lo)
    ensures LengthsIn(l, f', s, s, lo + 1, hi) <= LengthsIn(l, f, s, s, lo, hi)
  {
    hide LengthsIn, LengthsLess, FilledFile;
    FilledLengths(l, f, s, f', s, lo);
    LengthsShrink(l, f, s, f', s, s, lo, hi);
    LengthsLater(l, f', s, s, lo, hi);
  }

  /** A file has grown to its new size, which filled the last block of the range. */
  lemma {:induction false} LengthsGrown(l: Layout, f: File, s: nat, f': File, s': nat, lo: nat, hi: nat)
    requires ValidLayout(l) && |f.db| == |f'.db| == DIRECT && |f.trees| == |f'.trees| == 3 && lo < hi && FilledFile(l, f, f', hi - 1)
    ensures LengthsIn(l, f', s', s', lo, hi) <= NeedLengths(l, f, s, s', lo, hi)
  {
    hide LengthsIn, LengthsLess, FilledFile, TailAsk;
    FilledLengths(l, f, s, f', s', hi - 1);
    LengthsShrink(l, f, s, f', s', s', lo, hi);
  }

  /** Growing alone asks for no other lengths than growing and writing. */
  lemma {:induction false} LengthsWider(l: Layout, f: File, s: nat, s': nat, lo: nat, hi: nat)
    requires ValidLayout(l) && |f.db| == DIRECT && |f.trees| == 3 && lo < hi
    ensures NeedLengths(l, f, s, s', hi - 1, hi) <= NeedLengths(l, f, s, s', lo, hi)
  {
    hide Lengths, LengthsIn, Block, FileFrags, Quot, Ask;
    var tail := Quot(BlockBytes(l), s);
    assert LengthsIn(l, f, s, s', hi - 1, hi) == Lengths(l, f, s, s', hi - 1) by { OneLength(l, f, s, s', hi - 1); }
    LengthsHas(l, f, s, s', lo, hi, hi - 1);
    if lo <= tail < hi - 1 {
      LengthsHas(l, f, s, s', lo, hi, tail);
      AskIsLength(l, f, s, s', tail);
    }
  }

  lemma NeedLengthsHave(l: Layout, f: File, s: nat, s': nat, lo: nat, hi: nat)
    requires ValidLayout(l) && |f.db| == DIRECT && |f.trees| == 3
    ensures LengthsIn(l, f, s, s', lo, hi) <= NeedLengths(l, f, s, s', lo, hi)
  {
    hide LengthsIn, TailAsk;
  }

  lemma OneLength(l: Layout, f: File, s: nat, s': nat, b: nat)
    requires ValidLayout(l) && |f.db| == DIRECT && |f.trees| == 3
    ensures LengthsIn(l, f, s, s', b, b + 1) == Lengths(l, f, s, s', b)
  {
    hide Lengths;
    assert LengthsIn(l, f, s, s', b, b) == {};
  }

  lemma AskIsLength(l: Layout, f: File, s: nat, s': nat, b: nat)
    requires ValidLayout(l) && |f.db| == DIRECT && |f.trees| == 3
    ensures IfAny(Ask(l, f, s, s', b), Ask(l, f, s, s', b)) <= Lengths(l, f, s, s', b)
  {
    hide Ask, FileNodes;
  }

  lemma {:induction false} HoleLengths(l: Layout, f: File, s: nat, t: nat, s': nat, b: nat)
    requires ValidLayout(l) && |f.db| == DIRECT && |f.trees| == 3 && Block(l.entries, f, b) == 0
    ensures Lengths(l, f, s, s', b) == Lengths(l, f, t, s', b)
  {
    hide Block, FileNodes, FileFrags;
  }
}
