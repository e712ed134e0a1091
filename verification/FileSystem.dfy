/** All files of a volume together. An operation that fails is undone by its transaction, so here it
    changes nothing. */
module FileSystem {
  import opened Scale
  import opened Ledger
  import opened Options
  import opened Volume
  import opened BlockTree
  import opened Files
  import opened FileMutate
  import opened FileNeeds
  import opened FileResize
  import opened FileIo
  import FileFree

  /** An inode as a value. */
  datatype Inode = Inode(size: nat, blocks: nat, db: seq<nat>, ib: seq<nat>)

  ghost predicate InodeOk(l: Layout, spf: nat, m: Image, n: Inode)
    requires ValidLayout(l)
  {
    OnDisk(l, m.d) && |n.ib| == 3 && FileOk(l, spf, m, FileOf(l, m.d, n.db, n.ib), n.size, n.blocks)
  }

  ghost function Holds(l: Layout, spf: nat, m: Image, n: Inode): multiset<nat>
    requires ValidLayout(l) && InodeOk(l, spf, m, n)
  {
    FileHeld(l.g.frag, FileOf(l, m.d, n.db, n.ib), Lens(l, n.size), true)
  }

  ghost function BytesOf(l: Layout, spf: nat, m: Image, n: Inode): seq<Byte>
    requires ValidLayout(l) && InodeOk(l, spf, m, n)
  {
    Content(l, m.d, FileOf(l, m.d, n.db, n.ib), n.size)
  }

  ghost predicate EachOk(l: Layout, spf: nat, m: Image, ns: seq<Inode>)
    requires ValidLayout(l)
  {
    forall i | 0 <= i < |ns| :: InodeOk(l, spf, m, ns[i])
  }

  ghost function AllHold(l: Layout, spf: nat, m: Image, ns: seq<Inode>): (ms: seq<multiset<nat>>)
    requires ValidLayout(l) && EachOk(l, spf, m, ns)
    ensures |ms| == |ns| && forall i | 0 <= i < |ns| :: ms[i] == Holds(l, spf, m, ns[i])
  {
    seq(|ns|, i requires 0 <= i < |ns| => Holds(l, spf, m, ns[i]))
  }

  ghost function AllBytes(l: Layout, spf: nat, m: Image, ns: seq<Inode>): (ss: seq<seq<Byte>>)
    requires ValidLayout(l) && EachOk(l, spf, m, ns)
    ensures |ss| == |ns| && forall i | 0 <= i < |ns| :: ss[i] == BytesOf(l, spf, m, ns[i])
  {
    seq(|ns|, i requires 0 <= i < |ns| => BytesOf(l, spf, m, ns[i]))
  }

  /** Every file is at rest, and no fragment has two holders among the files and the free map. */
  ghost predicate AllOk(l: Layout, spf: nat, m: Image, ns: seq<Inode>)
    requires ValidLayout(l)
  {
    EachOk(l, spf, m, ns) && Exclusive(m.free, Union(AllHold(l, spf, m, ns)))
  }

  // ----- a step of one file -----

  lemma {:induction false} OtherInode(l: Layout, spf: nat, m: Image, m': Image, own: multiset<nat>, own': multiset<nat>, n: Inode)
    requires ValidLayout(l) && InodeOk(l, spf, m, n) && Step(l.fs, m, m', own, own')
    requires Exclusive(m.free, own + Holds(l, spf, m, n))
    ensures InodeOk(l, spf, m', n)
    ensures Holds(l, spf, m', n) == Holds(l, spf, m, n) && BytesOf(l, spf, m', n) == BytesOf(l, spf, m, n)
  {
    hide Step, Exclusive, NothingPast, Shaped, FileHeld, Lens, Content, Load, Extent, Base, Times;
    OtherFileKept(l, m, m', own, own', n.db, n.ib, n.size);
  }

  /** Two of the files share nothing. */
  lemma {:induction false} PairApart(free: iset<nat>, ms: seq<multiset<nat>>, i: nat, j: nat)
    requires i < |ms| && j < |ms| && i != j && Exclusive(free, Union(ms))
    ensures Exclusive(free, ms[i] + ms[j])
  {
    forall y: nat
      ensures Holders(free, ms[i] + ms[j], y) <= 1
    {
      UnionPair(ms, i, j, y);
      assert Holders(free, Union(ms), y) <= 1;
    }
  }

  /** File `i` makes a step: every other file keeps its bytes and its fragments, and the volume's
      fragments are conserved. */
  lemma {:induction false} StepAll(l: Layout, spf: nat, m: Image, m': Image, ns: seq<Inode>, ns': seq<Inode>, i: nat)
    requires ValidLayout(l) && AllOk(l, spf, m, ns) && i < |ns| == |ns'| && ns' == ns[i := ns'[i]]
    requires InodeOk(l, spf, m', ns'[i])
    requires Step(l.fs, m, m', Holds(l, spf, m, ns[i]), Holds(l, spf, m', ns'[i]))
    ensures AllOk(l, spf, m', ns')
    ensures AllBytes(l, spf, m', ns') == AllBytes(l, spf, m, ns)[i := BytesOf(l, spf, m', ns'[i])]
    ensures Conserved(m.free, Union(AllHold(l, spf, m, ns)), m'.free, Union(AllHold(l, spf, m', ns')))
  {
    hide InodeOk, Exclusive, Conserved, Untouched, Holds, BytesOf, Union;
    var ms := AllHold(l, spf, m, ns);
    var own, own' := Holds(l, spf, m, ns[i]), Holds(l, spf, m', ns'[i]);
    forall j | 0 <= j < |ns| && j != i
      ensures InodeOk(l, spf, m', ns'[j]) && Holds(l, spf, m', ns'[j]) == ms[j]
      ensures BytesOf(l, spf, m', ns'[j]) == BytesOf(l, spf, m, ns[j])
    {
      PairApart(m.free, ms, i, j);
      OtherInode(l, spf, m, m', own, own', ns[j]);
    }
    assert AllHold(l, spf, m', ns') == ms[i := own'];
    UnionStep(ms, i, own', m.free, m'.free);
    StillExclusive(m.free, Union(ms), m'.free, Union(ms[i := own']));
  }

  // ----- the operations -----

  datatype Op =
    | Resize(i: nat, size: nat, preferred: nat)
    | Write(i: nat, data: seq<Byte>, offset: nat, preferred: nat)
    | Free(i: nat)

  /** What an operation makes of its file's bytes. */
  function Applied(op: Op, s: seq<Byte>): seq<Byte> {
    match op
    case Resize(_, size, _) => Resized(s, size)
    case Write(_, data, offset, _) => Written(s, offset, data)
    case Free(_) => []
  }

  /** The contents of all files after the operations that succeeded. */
  function Outcome(ops: seq<Op>, done: seq<bool>, ss: seq<seq<Byte>>): (r: seq<seq<Byte>>)
    requires |done| <= |ops|
    ensures |r| == |ss|
  {
    if done == [] then ss else
      var k := |done| - 1;
      var before := Outcome(ops, done[..k], ss);
      if done[k] && ops[k].i < |ss| then before[ops[k].i := Applied(ops[k], before[ops[k].i])] else before
  }

  lemma {:induction false} NodeMeans(v: Volume, node: Node)
    requires v.Valid()
    ensures AtRest(v, node) <==> InodeOk(v.Lay(), v.spf, Img(v), Value(node))
    ensures AtRest(v, node) ==>
      && OwnedBy(v, node) == Holds(v.Lay(), v.spf, Img(v), Value(node))
      && FileBytes(v, node) == BytesOf(v.Lay(), v.spf, Img(v), Value(node))
  {
    hide FileHeld, Lens, Content, Load, FileOk, CountsValid, IsFree;
  }

  lemma {:induction false} OutcomeStart(ops: seq<Op>, ss: seq<seq<Byte>>)
    ensures Outcome(ops, [], ss) == ss
  {
  }

  lemma {:induction false} OutcomeNext(ops: seq<Op>, done: seq<bool>, b: bool, ss: seq<seq<Byte>>)
    requires |done| < |ops|
    ensures var k, before := |done|, Outcome(ops, done, ss);
      Outcome(ops, done + [b], ss)
        == if b && ops[k].i < |ss| then before[ops[k].i := Applied(ops[k], before[ops[k].i])] else before
  {
    hide Applied;
    assert (done + [b])[..|done|] == done;
  }

  /** The operation on one file is within the limits, and the volume affords what it takes. */
  ghost predicate CanDo(v: Volume, node: Node, op: Op)
    requires v.Valid() && |node.ib| == 3 && |node.db| == DIRECT
    reads v, node
  {
    match op
    case Resize(_, size, _) => size <= node.size || (size <= MAX_SIZE && Addressable(v.Lay(), size) && CanResize(v, node, size))
    case Write(_, data, offset, _) =>
      |data| == 0 || (offset + |data| <= MAX_SIZE && Addressable(v.Lay(), offset + |data|) && CanStore(v, node, offset, |data|))
    case Free(_) => true
  }

  /** The same of a volume with the totals `t` and the data `d`, and a file as a value. */
  ghost predicate Affordable(v: Volume, t: Csum, d: seq<Byte>, n: Inode, op: Op)
    requires ValidLayout(v.Lay())
  {
    |n.ib| == 3 && |n.db| == DIRECT && OnDisk(v.Lay(), d) &&
    var l, f := v.Lay(), FileOf(v.Lay(), d, n.db, n.ib);
    match op
    case Resize(_, size, _) =>
      size <= n.size ||
      (size <= MAX_SIZE && Addressable(l, size) && Reserve(v, t, l, f, n.size, size, Last(l, size), Last(l, size) + 1))
    case Write(_, data, offset, _) =>
      |data| == 0 ||
      (offset + |data| <= MAX_SIZE && Addressable(l, offset + |data|) &&
       Reserve(v, t, l, f, n.size, if offset + |data| > n.size then offset + |data| else n.size,
               Quot(BlockBytes(l), offset), Quot(BlockBytes(l), offset + |data| - 1) + 1))
    case Free(_) => true
  }

  /** Whole blocks for what is needed are free, and the reserve allows it. */
  ghost predicate Reserve(v: Volume, t: Csum, l: Layout, f: File, s: nat, s': nat, lo: nat, hi: nat)
    requires ValidLayout(l) && |f.db| == DIRECT && |f.trees| == 3
  {
    && NeedBlocks(l, f, s, s', lo, hi) <= t.nbfree
    && (!v.unprivileged ||
        (v.minfree <= 99 && NeedFrags(l, f, s, s', lo, hi) + v.dataFrags * v.minfree / 100 <= t.nbfree * v.g.frag + t.nffree))
  }

  /** The operation on a file at rest. */
  ghost predicate Doable(v: Volume, node: Node, op: Op)
    requires AtRest(v, node)
    reads v, node
  {
    RestShape(v, node);
    |node.ib| == 3 && CanDo(v, node, op)
  }

  lemma {:induction false} CanDoNow(v: Volume, node: Node, op: Op)
    requires AtRest(v, node)
    ensures ValidLayout(v.Lay()) && (Affordable(v, v.total, v.data, Value(node), op) ==> Doable(v, node, op))
  {
    hide NeedBlocks, NeedFrags, Load, CountsValid, IsFree, Addressable, Quot, FileOk, Extent;
    RestShape(v, node);
  }

  /** A moment of a run: the totals, the data, and the inodes. */
  datatype Moment = Moment(total: Csum, data: seq<Byte>, ns: seq<Inode>)

  ghost predicate Empty(n: Inode) {
    n == Inode(0, 0, FileFree.NoPointers(DIRECT), FileFree.NoPointers(3))
  }

  lemma {:induction false} EmptyInode(l: Layout, spf: nat, m: Image, n: Inode)
    requires ValidLayout(l) && OnDisk(l, m.d) && Empty(n)
    ensures InodeOk(l, spf, m, n) && Holds(l, spf, m, n) == multiset{}
  {
    FileFree.EmptyFile(l, spf, m);
  }

  lemma {:induction false} AllEmpty(l: Layout, spf: nat, m: Image, ns: seq<Inode>)
    requires ValidLayout(l) && OnDisk(l, m.d) && forall i | 0 <= i < |ns| :: Empty(ns[i])
    ensures AllOk(l, spf, m, ns) && Union(AllHold(l, spf, m, ns)) == multiset{}
  {
    hide InodeOk, Holds, Empty;
    forall i | 0 <= i < |ns|
      ensures InodeOk(l, spf, m, ns[i]) && Holds(l, spf, m, ns[i]) == multiset{}
    {
      EmptyInode(l, spf, m, ns[i]);
    }
    UnionEmpty(AllHold(l, spf, m, ns));
  }

  ghost function Value(node: Node): Inode
    reads node
  {
    Inode(node.size, node.blocks, node.db, node.ib)
  }

  /** The inodes of a volume, each a node of its own. */
  class FileTable {
    const v: Volume
    const nodes: seq<Node>

    /** A volume whose files are all empty. */
    constructor (v: Volume, nodes: seq<Node>)
      requires v.Valid() && forall i, j | 0 <= i < j < |nodes| :: nodes[i] != nodes[j]
      requires forall i | 0 <= i < |nodes| :: Empty(Value(nodes[i]))
      ensures Valid() && this.v == v && this.nodes == nodes && Held() == multiset{}
    {
      this.v, this.nodes := v, nodes;
      new;
      AllEmpty(v.Lay(), v.spf, Img(v), Values());
    }

    ghost function Values(): (ns: seq<Inode>)
      reads nodes
      ensures |ns| == |nodes| && forall i | 0 <= i < |nodes| :: ns[i] == Value(nodes[i])
    {
      seq(|nodes|, i requires 0 <= i < |nodes| reads nodes => Value(nodes[i]))
    }

    ghost predicate Valid()
      reads v, nodes
    {
      && (forall i, j | 0 <= i < j < |nodes| :: nodes[i] != nodes[j])
      && v.Valid() && AllOk(v.Lay(), v.spf, Img(v), Values())
    }

    ghost function Contents(): seq<seq<Byte>>
      requires Valid()
      reads v, nodes
    {
      AllBytes(v.Lay(), v.spf, Img(v), Values())
    }

    /** The fragments that the files hold. */
    ghost function Held(): multiset<nat>
      requires Valid()
      reads v, nodes
    {
      Union(AllHold(v.Lay(), v.spf, Img(v), Values()))
    }

    ghost function Now(): Moment
      reads v, nodes
    {
      Moment(v.total, v.data, Values())
    }

    /** At that moment the operation has to succeed. */
    ghost predicate Possible(s: Moment, op: Op) {
      ValidLayout(v.Lay()) && op.i < |s.ns| && Affordable(v, s.total, s.data, s.ns[op.i], op)
    }

    /** From one moment of a run to the next: an operation changes no inode but its file's, fails only when
        it was not possible, and then changes nothing. */
    ghost predicate Turn(s: Moment, s': Moment, op: Op, done: bool) {
      && op.i < |s.ns| == |s'.ns| && s'.ns == s.ns[op.i := s'.ns[op.i]]
      && (!done ==> s' == s && !Possible(s, op))
    }

    /** One operation. If it fails the transaction puts the image back and the inode is not stored. */
    method Perform(op: Op) returns (r: Option<Errno>)
      requires Valid() && op.i < |nodes|
      modifies v, nodes
      ensures Valid()
      ensures r.Some? ==> v.cgs == old(v.cgs) && v.csum == old(v.csum) && v.total == old(v.total) && v.data == old(v.data)
      ensures r.Some? ==> Values() == old(Values()) && Contents() == old(Contents()) && Held() == old(Held())
      ensures r.None? ==> Contents() == old(Contents())[op.i := Applied(op, old(Contents())[op.i])]
      ensures Conserved(old(v.Free()), old(Held()), v.Free(), Held())
      ensures r.Some? ==> r.value in {Enospc, Einval, Efbig}
      ensures r.Some? ==> !old(Possible(Now(), op))
      ensures Values() == old(Values())[op.i := Values()[op.i]]
    {
      hide Affordable, Doable, AllOk, InodeOk, AtRest, Holds, BytesOf, OwnedBy, FileBytes, Conserved, Exclusive, Step,
        CountsValid, IsFree, Applied, Union,
        AllHold, AllBytes, ValidLayout;
      var node := nodes[op.i];
      StartOf(op.i);
      ghost var l, spf, m, ns := v.Lay(), v.spf, Img(v), Values();
      var cgs, csum, total, data := v.cgs, v.csum, v.total, v.data;
      var size, blocks, db, ib := node.size, node.blocks, node.db, node.ib;
      CanDoNow(v, node, op);
      r := OneFile(node, op);
      if r.Some? {
        v.cgs, v.csum, v.total, v.data := cgs, csum, total, data;
        node.size, node.blocks, node.db, node.ib := size, blocks, db, ib;
        assert Values() == ns;
        assert Img(v) == m;
        FileFree.ConservedSelf(v.Free(), Held());
      } else {
        assert Values() == ns[op.i := Value(node)];
        NodeMeans(v, node);
        StepAll(l, spf, m, Img(v), ns, Values(), op.i);
      }
    }

    lemma StartOf(i: nat)
      requires Valid() && i < |nodes|
      ensures 0 < v.g.fpg && AtRest(v, nodes[i]) && Values()[i] == Value(nodes[i])
      ensures InodeOk(v.Lay(), v.spf, Img(v), Values()[i])
      ensures OwnedBy(v, nodes[i]) == Holds(v.Lay(), v.spf, Img(v), Values()[i])
      ensures FileBytes(v, nodes[i]) == BytesOf(v.Lay(), v.spf, Img(v), Values()[i])
      ensures |Contents()| == |nodes| && Contents()[i] == FileBytes(v, nodes[i])
    {
      hide InodeOk, AtRest, Holds, BytesOf, OwnedBy, FileBytes, CountsValid, IsFree, Exclusive, Union;
      NodeMeans(v, nodes[i]);
    }

    /** The operation on its own file. */
    method OneFile(node: Node, op: Op) returns (r: Option<Errno>)
      requires AtRest(v, node)
      modifies v, node
      ensures r.Some? ==> r.value in {Enospc, Einval, Efbig}
      ensures old(Doable(v, node, op)) ==> r.None?
      ensures r.None? ==>
        && v.Valid() && AtRest(v, node) && FileBytes(v, node) == Applied(op, old(FileBytes(v, node)))
        && Step(v.fsize, old(Img(v)), Img(v), old(OwnedBy(v, node)), OwnedBy(v, node))
    {
      hide CountsValid, IsFree, Content, FileHeld, Load, Lens, Extent, NeedBlocks, NeedFrags, Addressable, Resized,
        Written, CanResize, CanStore, FilledFile, NodeHeld;
      RestShape(v, node);
      match op
      case Resize(_, size, preferred) =>
        r := FileIo.Resize(v, node, size, preferred);
      case Write(_, data, offset, preferred) =>
        r := FileIo.Write(v, node, data, offset, preferred);
      case Free(_) =>
        FileFree.Free(v, node);
        r := None;
    }

    lemma ContentsSize()
      requires Valid()
      ensures |Contents()| == |nodes| && 0 < v.g.fpg
    {
    }

    /** Any sequence of operations, any of which may fail: the contents of every file are those that the
        successful operations on it make of it, and fragments are only exchanged with the free map. Along
        the way an operation fails only when the volume could not afford it. */
    method Run(ops: seq<Op>) returns (done: seq<bool>, ghost trace: seq<Moment>)
      requires Valid() && forall k | 0 <= k < |ops| :: ops[k].i < |nodes|
      modifies v, nodes
      ensures Valid() && |done| == |ops|
      ensures Contents() == Outcome(ops, done, old(Contents()))
      ensures Conserved(old(v.Free()), old(Held()), v.Free(), Held())
      ensures |trace| == |ops| + 1 && trace[0] == old(Now()) && trace[|ops|] == Now()
      ensures forall k | 0 <= k < |ops| :: Turn(trace[k], trace[k + 1], ops[k], done[k])
    {
      hide Possible, Valid, Conserved, Outcome, Contents, Held, Applied;
      done, trace := [], [Now()];
      ContentsSize();
      ghost var ss, free0, held0 := Contents(), v.Free(), Held();
      FileFree.ConservedSelf(free0, held0);
      OutcomeStart(ops, ss);
      for k := 0 to |ops|
        invariant Valid() && |done| == k
        invariant Contents() == Outcome(ops, done, ss) && |ss| == |nodes|
        invariant Conserved(free0, held0, v.Free(), Held())
        invariant |trace| == k + 1 && trace[0] == old(Now()) && trace[k] == Now()
        invariant forall j | 0 <= j < k :: Turn(trace[j], trace[j + 1], ops[j], done[j])
      {
        ghost var free, held := v.Free(), Held();
        ContentsSize();
        var r := Perform(ops[k]);
        FileFree.ConservedTwice(free0, held0, free, held, v.Free(), Held());
        OutcomeNext(ops, done, r.None?, ss);
        done, trace := done + [r.None?], trace + [Now()];
      }
    }
  }
}
