/** The directory tree: inodes with link counts, directories with their entries and "..". The entries "."
    and ".." are not part of the entry maps. */
module Namespace {
  import opened Faults

  const ROOT := 2
  const LINK_MAX := 32767

  /** The directory flag and the link count of an inode. */
  datatype Inode = Inode(dir: bool, nlink: nat)

  /** A directory's entries and the inode its ".." names. */
  datatype Folder = Folder(entries: map<string, nat>, up: nat)

  type Folders = map<nat, Folder>

  datatype Fs = Fs(inodes: map<nat, Inode>, folders: Folders)

  // ----- references -----

  /** The entries that name inode `i`. */
  ghost function Refs(fo: Folders, i: nat): set<(nat, string)> {
    set d, n | d in fo && n in fo[d].entries && fo[d].entries[n] == i :: (d, n)
  }

  /** The directories whose ".." is `i`; the root's is the root itself. */
  ghost function Ups(fo: Folders, i: nat): set<nat> {
    set c | c in fo && fo[c].up == i
  }

  /** All entries that refer to inode `i`: by name, and for a directory its own "." and every "..". */
  ghost function Links(fo: Folders, i: nat): nat {
    |Refs(fo, i)| + if i in fo then 1 + |Ups(fo, i)| else 0
  }

  predicate DotName(n: string) {
    n == "." || n == ".."
  }

  // ----- the invariant -----

  ghost predicate EntryOk(fs: Fs, d: nat, n: string)
    requires d in fs.folders && n in fs.folders[d].entries
  {
    var i := fs.folders[d].entries[n];
    !DotName(n) && i in fs.inodes && i != ROOT && (i in fs.folders ==> fs.folders[i].up == d)
  }

  /** What holds of inode number `i`. It has a folder if it is a directory; its ".." is a directory and
      its entries name inodes; its link count is the number of references, and a directory has one name
      (the root none). */
  ghost predicate NodeOk(fs: Fs, i: nat) {
    && (i in fs.folders <==> i in fs.inodes && fs.inodes[i].dir)
    && (i in fs.folders ==> fs.folders[i].up in fs.folders)
    && (i in fs.folders ==> forall n | n in fs.folders[i].entries :: EntryOk(fs, i, n))
    && (i in fs.inodes ==> fs.inodes[i].nlink == Links(fs.folders, i) > 0)
    && (i in fs.folders ==> |Refs(fs.folders, i)| == if i == ROOT then 0 else 1)
  }

  ghost predicate NodesOk(fs: Fs) {
    forall i :: NodeOk(fs, i)
  }

  ghost predicate RootOk(fo: Folders) {
    ROOT in fo && fo[ROOT].up == ROOT
  }

  /** At most `k` steps of ".." lead from `d` to the root. */
  ghost predicate Climbs(fo: Folders, d: nat, k: nat)
    decreases k
  {
    d == ROOT || (k > 0 && d in fo && Climbs(fo, fo[d].up, k - 1))
  }

  ghost predicate Rooted(fo: Folders, d: nat) {
    exists k: nat :: Climbs(fo, d, k)
  }

  /** No directory is its own ancestor: every chain of ".." ends at the root. */
  ghost predicate AllRooted(fo: Folders) {
    forall d | d in fo :: Rooted(fo, d)
  }

  ghost predicate Valid(fs: Fs) {
    NodesOk(fs) && RootOk(fs.folders) && AllRooted(fs.folders)
  }

  /** `a` lies on the chain of ".." from `d`. */
  ghost predicate Ancestor(fo: Folders, a: nat, d: nat, k: nat)
    decreases k
  {
    a == d || (k > 0 && d != ROOT && d in fo && Ancestor(fo, a, fo[d].up, k - 1))
  }

  // ----- changes of the folders -----

  function PutEntry(fo: Folders, d: nat, n: string, i: nat): Folders
    requires d in fo
  {
    fo[d := fo[d].(entries := fo[d].entries[n := i])]
  }

  function DropEntry(fo: Folders, d: nat, n: string): Folders
    requires d in fo
  {
    fo[d := fo[d].(entries := fo[d].entries - {n})]
  }

  function PutUp(fo: Folders, s: nat, q: nat): Folders
    requires s in fo
  {
    fo[s := fo[s].(up := q)]
  }

  lemma {:induction false} RefsPut(fo: Folders, d: nat, n: string, i: nat, j: nat)
    requires d in fo && n !in fo[d].entries
    ensures Refs(PutEntry(fo, d, n, i), j) == Refs(fo, j) + if j == i then {(d, n)} else {}
    ensures Ups(PutEntry(fo, d, n, i), j) == Ups(fo, j)
    ensures |Refs(PutEntry(fo, d, n, i), j)| == |Refs(fo, j)| + if j == i then 1 else 0
  {
    assert (d, n) !in Refs(fo, j);
  }

  lemma {:induction false} RefsDrop(fo: Folders, d: nat, n: string, j: nat)
    requires d in fo && n in fo[d].entries
    ensures Refs(DropEntry(fo, d, n), j) == Refs(fo, j) - if j == fo[d].entries[n] then {(d, n)} else {}
    ensures Ups(DropEntry(fo, d, n), j) == Ups(fo, j)
    ensures |Refs(DropEntry(fo, d, n), j)| == |Refs(fo, j)| - if j == fo[d].entries[n] then 1 else 0
  {
    if j == fo[d].entries[n] {
      assert (d, n) in Refs(fo, j);
    }
  }

  lemma {:induction false} RefsUp(fo: Folders, s: nat, q: nat, j: nat)
    requires s in fo && fo[s].up != q
    ensures Refs(PutUp(fo, s, q), j) == Refs(fo, j)
    ensures |Ups(PutUp(fo, s, q), j)| == |Ups(fo, j)| + if j == q then 1 else if j == fo[s].up then -1 else 0
  {
    UpsMoved(fo, s, q, j);
  }

  lemma {:induction false} UpsMoved(fo: Folders, s: nat, q: nat, j: nat)
    requires s in fo && fo[s].up != q
    ensures Ups(PutUp(fo, s, q), j) == if j == q then Ups(fo, j) + {s} else Ups(fo, j) - {s}
    ensures s in Ups(fo, j) <==> j == fo[s].up
  {
  }

  lemma {:induction false} RefsNew(fo: Folders, x: nat, p: nat, j: nat)
    requires x !in fo && p != x
    ensures Refs(fo[x := Folder(map[], p)], j) == Refs(fo, j)
    ensures Ups(fo[x := Folder(map[], p)], j) == Ups(fo, j) + if j == p then {x} else {}
    ensures |Ups(fo[x := Folder(map[], p)], j)| == |Ups(fo, j)| + if j == p then 1 else 0
  {
    assert x !in Ups(fo, j);
  }

  lemma {:induction false} RefsGone(fo: Folders, x: nat, j: nat)
    requires x in fo && fo[x].entries == map[]
    ensures Refs(fo - {x}, j) == Refs(fo, j)
    ensures Ups(fo - {x}, j) == Ups(fo, j) - if j == fo[x].up then {x} else {}
    ensures |Ups(fo - {x}, j)| == |Ups(fo, j)| - if j == fo[x].up then 1 else 0
  {
    if j == fo[x].up {
      assert x in Ups(fo, j);
    }
  }

  // ----- chains of ".." -----

  lemma {:induction false} ClimbsMore(fo: Folders, d: nat, k: nat, m: nat)
    requires Climbs(fo, d, k) && k <= m
    ensures Climbs(fo, d, m)
    decreases k
  {
    if d != ROOT {
      ClimbsMore(fo, fo[d].up, k - 1, m - 1);
    }
  }

  /** The same ".." everywhere on a set of folders that a chain never leaves. */
  lemma {:induction false} ClimbsSame(fo: Folders, go: Folders, d: nat, k: nat)
    requires Climbs(fo, d, k) && forall c | c in fo :: c in go && go[c].up == fo[c].up
    ensures Climbs(go, d, k)
    decreases k
  {
    if d != ROOT {
      ClimbsSame(fo, go, fo[d].up, k - 1);
    }
  }

  /** A chain that does not meet `s` is not changed when `s` moves. */
  lemma {:induction false} ClimbsAround(fo: Folders, d: nat, k: nat, s: nat, q: nat)
    requires Climbs(fo, d, k) && s in fo && !Ancestor(fo, s, d, k)
    ensures Climbs(PutUp(fo, s, q), d, k)
    decreases k
  {
    if d != ROOT {
      ClimbsAround(fo, fo[d].up, k - 1, s, q);
    }
  }

  /** After `s` moves below `q`, which is not below `s`, every chain still ends at the root. */
  lemma {:induction false} ClimbsMoved(fo: Folders, d: nat, k: nat, s: nat, q: nat, m: nat)
    requires Climbs(fo, d, k) && s in fo && s != ROOT && Climbs(PutUp(fo, s, q), q, m)
    ensures Climbs(PutUp(fo, s, q), d, k + m + 1)
    decreases k
  {
    var go := PutUp(fo, s, q);
    if d == s {
      ClimbsMore(go, q, m, k + m);
    } else if d != ROOT {
      ClimbsMoved(fo, fo[d].up, k - 1, s, q, m);
    }
  }

  /** A directory that is nobody's ".." can go. */
  lemma {:induction false} ClimbsWithout(fo: Folders, d: nat, k: nat, x: nat)
    requires Climbs(fo, d, k) && d != x && x != ROOT && forall c | c in fo :: fo[c].up != x
    ensures Climbs(fo - {x}, d, k)
    decreases k
  {
    if d != ROOT {
      ClimbsWithout(fo, fo[d].up, k - 1, x);
    }
  }

  lemma {:induction false} MovedRooted(fo: Folders, s: nat, q: nat, k: nat)
    requires AllRooted(fo) && s in fo && s != ROOT && Climbs(fo, q, k) && !Ancestor(fo, s, q, k)
    ensures AllRooted(PutUp(fo, s, q))
  {
    ClimbsAround(fo, q, k, s, q);
    forall d | d in PutUp(fo, s, q)
      ensures Rooted(PutUp(fo, s, q), d)
    {
      var j: nat :| Climbs(fo, d, j);
      ClimbsMoved(fo, d, j, s, q, k);
    }
  }

  ghost predicate SameUps(fo: Folders, go: Folders) {
    && (forall d :: d in fo <==> d in go)
    && forall d | d in fo :: go[d].up == fo[d].up
  }

  lemma {:induction false} SameRooted(fo: Folders, go: Folders)
    requires AllRooted(fo) && SameUps(fo, go)
    ensures AllRooted(go)
  {
    forall d | d in go
      ensures Rooted(go, d)
    {
      var j: nat :| Climbs(fo, d, j);
      ClimbsSame(fo, go, d, j);
    }
  }

  lemma {:induction false} NewRooted(fo: Folders, x: nat, p: nat)
    requires AllRooted(fo) && x !in fo && p in fo
    ensures AllRooted(fo[x := Folder(map[], p)])
  {
    var go := fo[x := Folder(map[], p)];
    forall d | d in go
      ensures Rooted(go, d)
    {
      var c := if d == x then p else d;
      var j: nat :| Climbs(fo, c, j);
      ClimbsSame(fo, go, c, j);
      assert d == x ==> Climbs(go, d, j + 1);
    }
  }

  lemma {:induction false} GoneRooted(fo: Folders, x: nat)
    requires AllRooted(fo) && x != ROOT && forall c | c in fo :: fo[c].up != x
    ensures AllRooted(fo - {x})
  {
    forall d | d in fo - {x}
      ensures Rooted(fo - {x}, d)
    {
      var j: nat :| Climbs(fo, d, j);
      ClimbsWithout(fo, d, j, x);
    }
  }

  // ----- changes of the name space -----

  function Count(fs: Fs, i: nat): nat {
    if i in fs.inodes then fs.inodes[i].nlink else 0
  }

  function SetCount(fs: Fs, i: nat, n: nat): map<nat, Inode>
    requires i in fs.inodes
  {
    fs.inodes[i := fs.inodes[i].(nlink := n)]
  }

  /** One link of a file less; the inode goes with its last link. */
  function LessLink(fs: Fs, i: nat): map<nat, Inode>
    requires i in fs.inodes && fs.inodes[i].nlink > 0
  {
    if fs.inodes[i].nlink == 1 then fs.inodes - {i} else SetCount(fs, i, fs.inodes[i].nlink - 1)
  }

  ghost predicate HasEntry(fs: Fs, d: nat, n: string) {
    d in fs.folders && n in fs.folders[d].entries
  }

  ghost predicate FileEntry(fs: Fs, d: nat, n: string) {
    HasEntry(fs, d, n) && var i := fs.folders[d].entries[n]; i in fs.inodes && !fs.inodes[i].dir && fs.inodes[i].nlink > 0
  }

  ghost function WithoutFile(fs: Fs, d: nat, n: string): Fs
    requires FileEntry(fs, d, n)
  {
    Fs(LessLink(fs, fs.folders[d].entries[n]), DropEntry(fs.folders, d, n))
  }

  ghost predicate EmptyDirEntry(fs: Fs, d: nat, n: string) {
    HasEntry(fs, d, n) &&
    var x := fs.folders[d].entries[n];
    x in fs.folders && x != d && fs.folders[x].entries == map[] && Count(fs, d) > 0 && d in fs.inodes
  }

  ghost function WithoutDir(fs: Fs, d: nat, n: string): Fs
    requires EmptyDirEntry(fs, d, n)
  {
    var x := fs.folders[d].entries[n];
    Fs(SetCount(fs, d, fs.inodes[d].nlink - 1) - {x}, DropEntry(fs.folders, d, n) - {x})
  }

  ghost predicate FreeName(fs: Fs, d: nat, n: string) {
    d in fs.folders && d in fs.inodes && n !in fs.folders[d].entries && !DotName(n)
  }

  ghost function WithFile(fs: Fs, d: nat, n: string, i: nat): Fs
    requires FreeName(fs, d, n)
  {
    Fs(fs.inodes[i := Inode(false, Count(fs, i) + 1)], PutEntry(fs.folders, d, n, i))
  }

  ghost function WithDir(fs: Fs, d: nat, n: string, x: nat): Fs
    requires FreeName(fs, d, n)
  {
    Fs(SetCount(fs, d, fs.inodes[d].nlink + 1)[x := Inode(true, 2)],
       PutEntry(fs.folders, d, n, x)[x := Folder(map[], d)])
  }

  /** The entry moves; a directory that gets another parent takes one link from the old to the new one. */
  ghost function MovedFolders(fo: Folders, p: nat, m: string, q: nat, n: string, s: nat): Folders
    requires p in fo && q in fo && p in PutEntry(fo, q, n, s)
  {
    DropEntry(PutEntry(fo, q, n, s), p, m)
  }

  ghost function Moved(fs: Fs, p: nat, m: string, q: nat, n: string): Fs
    requires Movable(fs, p, m, q, n)
  {
    var s := fs.folders[p].entries[m];
    var go := MovedFolders(fs.folders, p, m, q, n, s);
    if s in go && p != q then
      Fs(SetCount(fs, p, fs.inodes[p].nlink - 1)[q := fs.inodes[q].(nlink := fs.inodes[q].nlink + 1)], PutUp(go, s, q))
    else
      Fs(fs.inodes, go)
  }

  // ----- the invariant is kept -----

  lemma {:induction false} DropSame(fo: Folders, d: nat, n: string)
    requires d in fo
    ensures SameUps(fo, DropEntry(fo, d, n))
  {
  }

  lemma {:induction false} PutSame(fo: Folders, d: nat, n: string, i: nat)
    requires d in fo
    ensures SameUps(fo, PutEntry(fo, d, n, i))
  {
  }

  lemma {:induction false} WithoutFileNode(fs: Fs, d: nat, n: string, i: nat)
    requires NodesOk(fs) && FileEntry(fs, d, n)
    ensures NodeOk(WithoutFile(fs, d, n), i)
  {
    hide Refs, Ups, NodesOk;
    var gs, x := WithoutFile(fs, d, n), fs.folders[d].entries[n];
    assert NodeOk(fs, i) && NodeOk(fs, x) by { NodesMean(fs, i); NodesMean(fs, x); }
    RefsDrop(fs.folders, d, n, i);
    RefsDrop(fs.folders, d, n, x);
    if i in gs.folders {
      forall m | m in gs.folders[i].entries
        ensures EntryOk(gs, i, m)
      {
        assert EntryOk(fs, i, m);
        TwoRefs(fs.folders, x, d, n, d, n);
        if fs.folders[i].entries[m] == x {
          TwoRefs(fs.folders, x, d, n, i, m);
        }
      }
    }
  }

  lemma {:induction false} NodesMean(fs: Fs, i: nat)
    requires NodesOk(fs)
    ensures NodeOk(fs, i)
  {
  }

  lemma {:induction false} WithoutFileKeeps(fs: Fs, d: nat, n: string)
    requires Valid(fs) && FileEntry(fs, d, n)
    ensures Valid(WithoutFile(fs, d, n))
  {
    hide NodeOk, AllRooted, SameUps;
    DropSame(fs.folders, d, n);
    SameRooted(fs.folders, DropEntry(fs.folders, d, n));
    forall i
      ensures NodeOk(WithoutFile(fs, d, n), i)
    {
      WithoutFileNode(fs, d, n, i);
    }
  }

  /** An inode with two names is counted twice. */
  lemma {:induction false} TwoRefs(fo: Folders, i: nat, d: nat, n: string, e: nat, m: string)
    requires d in fo && n in fo[d].entries && fo[d].entries[n] == i
    requires e in fo && m in fo[e].entries && fo[e].entries[m] == i
    ensures (d, n) != (e, m) ==> |Refs(fo, i)| >= 2
    ensures |Refs(fo, i)| >= 1
  {
    var pair := {(d, n), (e, m)};
    assert pair <= Refs(fo, i);
    SubsetSize(pair, Refs(fo, i));
  }

  lemma {:induction false} SubsetSize<T>(a: set<T>, b: set<T>)
    requires a <= b
    ensures |a| <= |b|
  {
    assert b == a + (b - a);
  }

  /** A number that is no inode is named nowhere. */
  lemma {:induction false} NoRefs(fs: Fs, i: nat)
    requires NodesOk(fs) && i !in fs.inodes
    ensures Refs(fs.folders, i) == {} && Ups(fs.folders, i) == {} && i !in fs.folders
  {
    NodesMean(fs, i);
    forall d, n | d in fs.folders && n in fs.folders[d].entries
      ensures fs.folders[d].entries[n] != i && fs.folders[d].up != i
    {
      NodesMean(fs, d);
      assert EntryOk(fs, d, n);
    }
    forall c | c in fs.folders
      ensures fs.folders[c].up != i
    {
      NodesMean(fs, c);
    }
  }

  /** Nothing is below an empty directory. */
  lemma {:induction false} NoUps(fs: Fs, x: nat, c: nat)
    requires NodesOk(fs) && RootOk(fs.folders) && x in fs.folders && x != ROOT && fs.folders[x].entries == map[]
    requires c in fs.folders
    ensures fs.folders[c].up != x
  {
    NodesMean(fs, c);
    if c != ROOT {
      var e, m :| (e, m) in Refs(fs.folders, c);
      NodesMean(fs, e);
      assert EntryOk(fs, e, m);
    }
  }

  lemma {:induction false} WithoutDirNode(fs: Fs, d: nat, n: string, i: nat)
    requires NodesOk(fs) && RootOk(fs.folders) && EmptyDirEntry(fs, d, n)
    ensures NodeOk(WithoutDir(fs, d, n), i) && fs.folders[d].entries[n] != ROOT
    ensures forall c | c in fs.folders :: fs.folders[c].up != fs.folders[d].entries[n]
  {
    hide Refs, Ups, NodesOk;
    var gs, x, fo := WithoutDir(fs, d, n), fs.folders[d].entries[n], fs.folders;
    NodesMean(fs, i);
    NodesMean(fs, x);
    NodesMean(fs, d);
    assert EntryOk(fs, d, n);
    forall c | c in fo
      ensures fo[c].up != x
    {
      NoUps(fs, x, c);
    }
    RefsDrop(fo, d, n, i);
    RefsGone(DropEntry(fo, d, n), x, i);
    if i in gs.folders {
      forall m | m in gs.folders[i].entries
        ensures EntryOk(gs, i, m)
      {
        assert EntryOk(fs, i, m);
        if fo[i].entries[m] == x {
          TwoRefs(fo, x, d, n, i, m);
        }
      }
    }
  }

  lemma {:induction false} WithoutDirKeeps(fs: Fs, d: nat, n: string)
    requires Valid(fs) && EmptyDirEntry(fs, d, n)
    ensures Valid(WithoutDir(fs, d, n))
  {
    hide NodeOk, NodesOk, AllRooted, SameUps;
    var x := fs.folders[d].entries[n];
    WithoutDirNode(fs, d, n, d);
    DropSame(fs.folders, d, n);
    SameRooted(fs.folders, DropEntry(fs.folders, d, n));
    GoneRooted(DropEntry(fs.folders, d, n), x);
    forall i
      ensures NodeOk(WithoutDir(fs, d, n), i)
    {
      WithoutDirNode(fs, d, n, i);
    }
    NodesFrom(WithoutDir(fs, d, n));
  }

  lemma {:induction false} NodesFrom(fs: Fs)
    requires forall i :: NodeOk(fs, i)
    ensures NodesOk(fs)
  {
  }

  lemma {:induction false} WithFileNode(fs: Fs, d: nat, n: string, x: nat, i: nat)
    requires NodesOk(fs) && RootOk(fs.folders) && FreeName(fs, d, n) && (x in fs.inodes ==> !fs.inodes[x].dir)
    ensures NodeOk(WithFile(fs, d, n, x), i)
  {
    hide Refs, Ups, NodesOk;
    var gs := WithFile(fs, d, n, x);
    NodesMean(fs, i);
    NodesMean(fs, x);
    NodesMean(fs, ROOT);
    RefsPut(fs.folders, d, n, x, i);
    if x !in fs.inodes {
      NoRefs(fs, x);
    }
    if i in gs.folders {
      forall m | m in gs.folders[i].entries
        ensures EntryOk(gs, i, m)
      {
        assert (i, m) == (d, n) || (m in fs.folders[i].entries && EntryOk(fs, i, m));
      }
    }
  }

  lemma {:induction false} WithFileKeeps(fs: Fs, d: nat, n: string, x: nat)
    requires Valid(fs) && FreeName(fs, d, n) && (x in fs.inodes ==> !fs.inodes[x].dir)
    ensures Valid(WithFile(fs, d, n, x))
  {
    hide NodeOk, NodesOk, AllRooted, SameUps;
    PutSame(fs.folders, d, n, x);
    SameRooted(fs.folders, PutEntry(fs.folders, d, n, x));
    forall i
      ensures NodeOk(WithFile(fs, d, n, x), i)
    {
      WithFileNode(fs, d, n, x, i);
    }
    NodesFrom(WithFile(fs, d, n, x));
  }

  lemma {:induction false} WithDirNode(fs: Fs, d: nat, n: string, x: nat, i: nat)
    requires NodesOk(fs) && RootOk(fs.folders) && FreeName(fs, d, n) && x !in fs.inodes
    ensures NodeOk(WithDir(fs, d, n, x), i) && x !in fs.folders
  {
    hide Refs, Ups, NodesOk;
    var gs := WithDir(fs, d, n, x);
    NodesMean(fs, i);
    NodesMean(fs, d);
    NodesMean(fs, ROOT);
    NoRefs(fs, x);
    RefsPut(fs.folders, d, n, x, i);
    RefsNew(PutEntry(fs.folders, d, n, x), x, d, i);
    if i in gs.folders {
      forall m | m in gs.folders[i].entries
        ensures EntryOk(gs, i, m)
      {
        assert (i, m) == (d, n) || (m in fs.folders[i].entries && EntryOk(fs, i, m));
      }
    }
  }

  lemma {:induction false} WithDirKeeps(fs: Fs, d: nat, n: string, x: nat)
    requires Valid(fs) && FreeName(fs, d, n) && x !in fs.inodes
    ensures Valid(WithDir(fs, d, n, x))
  {
    hide NodeOk, NodesOk, AllRooted, SameUps;
    WithDirNode(fs, d, n, x, d);
    PutSame(fs.folders, d, n, x);
    SameRooted(fs.folders, PutEntry(fs.folders, d, n, x));
    NewRooted(PutEntry(fs.folders, d, n, x), x, d);
    forall i
      ensures NodeOk(WithDir(fs, d, n, x), i)
    {
      WithDirNode(fs, d, n, x, i);
    }
    NodesFrom(WithDir(fs, d, n, x));
  }

  ghost predicate Movable(fs: Fs, p: nat, m: string, q: nat, n: string) {
    HasEntry(fs, p, m) && FreeName(fs, q, n) && p in fs.inodes && Count(fs, p) > 0
  }

  lemma {:induction false} MovedRefs(fo: Folders, p: nat, m: string, q: nat, n: string, i: nat)
    requires p in fo && q in fo && m in fo[p].entries && n !in fo[q].entries
    ensures var s := fo[p].entries[m];
      var go := MovedFolders(fo, p, m, q, n, s);
      && |Refs(go, i)| == |Refs(fo, i)| && |Ups(go, i)| == |Ups(fo, i)| && SameUps(fo, go)
  {
    var s := fo[p].entries[m];
    var fo1 := PutEntry(fo, q, n, s);
    PutSame(fo, q, n, s);
    DropSame(fo1, p, m);
    assert m in fo1[p].entries && fo1[p].entries[m] == s;
    hide Refs, Ups;
    RefsPut(fo, q, n, s, i);
    RefsDrop(fo1, p, m, i);
  }

  /** The entries of a folder after the move. */
  lemma {:induction false} MovedEntries(fo: Folders, p: nat, m: string, q: nat, n: string, i: nat, l: string)
    requires p in fo && q in fo && m in fo[p].entries && n !in fo[q].entries && i in fo
    ensures var s := fo[p].entries[m];
      var go := MovedFolders(fo, p, m, q, n, s);
      i in go && (l in go[i].entries ==>
        (i, l) == (q, n) || ((i, l) != (p, m) && l in fo[i].entries && go[i].entries[l] == fo[i].entries[l]))
    ensures var s := fo[p].entries[m];
      var go := MovedFolders(fo, p, m, q, n, s);
      i == q && l == n ==> l in go[i].entries && go[i].entries[l] == s
  {
  }

  lemma {:induction false} MovedEntryOk(fs: Fs, p: nat, m: string, q: nat, n: string, i: nat, l: string)
    requires NodesOk(fs) && Movable(fs, p, m, q, n) && HasEntry(Moved(fs, p, m, q, n), i, l)
    ensures EntryOk(Moved(fs, p, m, q, n), i, l)
  {
    hide Refs, Ups, NodesOk;
    var fo, gs := fs.folders, Moved(fs, p, m, q, n);
    var s := fo[p].entries[m];
    NodesMean(fs, p);
    assert EntryOk(fs, p, m);
    NodesMean(fs, i);
    NodesMean(fs, s);
    MovedEntries(fo, p, m, q, n, i, l);
    MovedRefs(fo, p, m, q, n, i);
    if (i, l) != (q, n) {
      assert EntryOk(fs, i, l);
      if fo[i].entries[l] == s {
        TwoRefs(fo, s, p, m, i, l);
      }
    }
  }

  ghost predicate CountsOk(fs: Fs, i: nat) {
    && (i in fs.inodes ==> fs.inodes[i].nlink == Links(fs.folders, i) > 0)
    && (i in fs.folders ==> |Refs(fs.folders, i)| == if i == ROOT then 0 else 1)
  }

  ghost predicate FolderOk(fs: Fs, i: nat) {
    && (i in fs.folders <==> i in fs.inodes && fs.inodes[i].dir)
    && (i in fs.folders ==> fs.folders[i].up in fs.folders)
  }

  lemma {:induction false} MovedCounts(fs: Fs, p: nat, m: string, q: nat, n: string, i: nat)
    requires NodesOk(fs) && Movable(fs, p, m, q, n)
    ensures CountsOk(Moved(fs, p, m, q, n), i)
  {
    var fo := fs.folders;
    var s := fo[p].entries[m];
    hide Refs, Ups, NodesOk, EntryOk, SameUps, MovedFolders, PutUp;
    MovedFacts(fs, p, m, q, s, i);
    MovedRefs(fo, p, m, q, n, i);
    var go := MovedFolders(fo, p, m, q, n, s);
    SameKeys(fo, go, s);
    SameKeys(fo, go, i);
    if s in go && p != q {
      RefsUp(go, s, q, i);
      PutUpKeys(go, s, q, i);
    }
  }

  lemma {:induction false} PutUpKeys(fo: Folders, s: nat, q: nat, i: nat)
    requires s in fo
    ensures i in PutUp(fo, s, q) <==> i in fo
    ensures i in fo ==> PutUp(fo, s, q)[i].up == if i == s then q else fo[i].up
  {
  }

  lemma {:induction false} MovedFacts(fs: Fs, p: nat, m: string, q: nat, s: nat, i: nat)
    requires NodesOk(fs) && HasEntry(fs, p, m) && q in fs.folders && s == fs.folders[p].entries[m]
    ensures CountsOk(fs, i) && FolderOk(fs, i) && CountsOk(fs, p) && FolderOk(fs, p) && FolderOk(fs, q) && FolderOk(fs, s)
    ensures s != ROOT && s in fs.inodes && (s in fs.folders ==> fs.folders[s].up == p)
  {
    NodesMean(fs, p);
    NodesMean(fs, q);
    NodesMean(fs, i);
    NodesMean(fs, s);
    assert EntryOk(fs, p, m);
  }

  lemma {:induction false} MovedFolderOk(fs: Fs, p: nat, m: string, q: nat, n: string, i: nat)
    requires NodesOk(fs) && Movable(fs, p, m, q, n)
    ensures FolderOk(Moved(fs, p, m, q, n), i)
  {
    var fo := fs.folders;
    var s := fo[p].entries[m];
    hide Refs, Ups, NodesOk, EntryOk, SameUps, MovedFolders, PutUp, CountsOk;
    MovedFacts(fs, p, m, q, s, i);
    MovedRefs(fo, p, m, q, n, i);
    var go := MovedFolders(fo, p, m, q, n, s);
    SameKeys(fo, go, s);
    SameKeys(fo, go, i);
    SameKeys(fo, go, q);
    if s in go && p != q {
      PutUpKeys(go, s, q, i);
      PutUpKeys(go, s, q, q);
    }
    if i in fo {
      SameKeys(fo, go, fo[i].up);
      if s in go && p != q {
        PutUpKeys(go, s, q, fo[i].up);
      }
    }
  }

  lemma {:induction false} MovedNode(fs: Fs, p: nat, m: string, q: nat, n: string, i: nat)
    requires NodesOk(fs) && Movable(fs, p, m, q, n)
    ensures NodeOk(Moved(fs, p, m, q, n), i)
  {
    hide Moved, NodesOk, Movable;
    MovedCounts(fs, p, m, q, n, i);
    MovedFolderOk(fs, p, m, q, n, i);
    var gs := Moved(fs, p, m, q, n);
    forall l | HasEntry(gs, i, l)
      ensures EntryOk(gs, i, l)
    {
      MovedEntryOk(fs, p, m, q, n, i, l);
    }
  }

  lemma {:induction false} MovedUp(fs: Fs, p: nat, m: string, s: nat)
    requires HasEntry(fs, p, m) && EntryOk(fs, p, m) && s == fs.folders[p].entries[m]
    ensures s != ROOT && s in fs.inodes && (s in fs.folders ==> fs.folders[s].up == p)
  {
  }

  /** A directory that gets a new parent must not lie on the new parent's chain of "..". */
  lemma {:induction false} MovedKeeps(fs: Fs, p: nat, m: string, q: nat, n: string, k: nat)
    requires Valid(fs) && Movable(fs, p, m, q, n)
    requires var s := fs.folders[p].entries[m];
      s in fs.folders ==> Climbs(fs.folders, q, k) && !Ancestor(fs.folders, s, q, k)
    ensures Valid(Moved(fs, p, m, q, n))
  {
    hide NodeOk, NodesOk, AllRooted, EntryOk, Climbs, Ancestor, SameUps;
    var fo := fs.folders;
    var s := fo[p].entries[m];
    var go := MovedFolders(fo, p, m, q, n, s);
    assert EntryOk(fs, p, m) by { NodeEntry(fs, p, m); }
    MovedUp(fs, p, m, s);
    MovedRefs(fo, p, m, q, n, s);
    SameRooted(fo, go);
    SameKeys(fo, go, s);
    SameKeys(fo, go, ROOT);
    if s in go && p != q {
      SameChain(fo, go, q, k, s);
      MovedRooted(go, s, q, k);
    }
    forall i
      ensures NodeOk(Moved(fs, p, m, q, n), i)
    {
      MovedNode(fs, p, m, q, n, i);
    }
    NodesFrom(Moved(fs, p, m, q, n));
  }

  lemma {:induction false} NodeEntry(fs: Fs, d: nat, n: string)
    requires NodesOk(fs) && HasEntry(fs, d, n)
    ensures EntryOk(fs, d, n)
  {
    NodesMean(fs, d);
  }

  lemma {:induction false} SameKeys(fo: Folders, go: Folders, i: nat)
    requires SameUps(fo, go)
    ensures i in fo <==> i in go
    ensures i in fo ==> go[i].up == fo[i].up
  {
  }

  lemma {:induction false} SameChain(fo: Folders, go: Folders, d: nat, k: nat, s: nat)
    requires SameUps(fo, go)
    ensures Climbs(go, d, k) <==> Climbs(fo, d, k)
    ensures Ancestor(go, s, d, k) <==> Ancestor(fo, s, d, k)
    decreases k
  {
    if k > 0 && d in fo {
      SameChain(fo, go, fo[d].up, k - 1, s);
    }
  }

  // ----- the operations -----

  const EIO := -5
  const ENOENT := -2
  const EEXIST := -17
  const ENOTDIR := -20
  const EISDIR := -21
  const EINVAL := -22
  const EPERM := -1
  const EMLINK := -31
  const ENOTEMPTY := -39

  /** A copy of an inode, as an operation holds it. */
  datatype Node = Node(ino: nat, inode: Inode)

  /** The copy is what is stored. */
  ghost predicate Current(fs: Fs, v: Node) {
    v.ino in fs.inodes && fs.inodes[v.ino] == v.inode
  }

  // ----- what each operation answers when its writes succeed -----

  ghost function MkdirVerdict(fs: Fs, p: nat, name: string): int {
    if DotName(name) then EINVAL
    else if p !in fs.folders then ENOTDIR
    else if HasEntry(fs, p, name) then EEXIST
    else if Count(fs, p) >= LINK_MAX then EMLINK
    else 0
  }

  ghost function CreateVerdict(fs: Fs, p: nat, name: string): int {
    if DotName(name) then EINVAL
    else if p !in fs.folders then ENOTDIR
    else if HasEntry(fs, p, name) then EEXIST
    else 0
  }

  ghost function LinkVerdict(fs: Fs, x: nat, p: nat, name: string): int {
    if DotName(name) then EINVAL
    else if x in fs.folders then EPERM
    else if p !in fs.folders then ENOTDIR
    else if HasEntry(fs, p, name) then EEXIST
    else if Count(fs, x) >= LINK_MAX then EMLINK
    else 0
  }

  ghost function UnlinkVerdict(fs: Fs, p: nat, name: string): int {
    if DotName(name) then EINVAL
    else if p !in fs.folders then ENOTDIR
    else if !HasEntry(fs, p, name) then ENOENT
    else if fs.folders[p].entries[name] in fs.folders then EISDIR
    else 0
  }

  ghost predicate Empty(fs: Fs, x: nat) {
    x in fs.folders && fs.folders[x].entries == map[]
  }

  /** The names "." and ".." are refused by the removal of the record, which only an empty root reaches. */
  ghost function RmdirVerdict(fs: Fs, p: nat, name: string): int {
    if p !in fs.folders then ENOTDIR
    else if DotName(name) then if p == ROOT && Empty(fs, ROOT) then EINVAL else ENOTEMPTY
    else if !HasEntry(fs, p, name) then ENOENT
    else if fs.folders[p].entries[name] !in fs.folders then ENOTDIR
    else if !Empty(fs, fs.folders[p].entries[name]) then ENOTEMPTY
    else 0
  }

  /** A directory that comes in raises the link count of `q`; one that it replaces has lowered it before. */
  ghost predicate TooManyLinks(fs: Fs, p: nat, m: string, q: nat, n: string)
    requires HasEntry(fs, p, m)
  {
    && fs.folders[p].entries[m] in fs.folders && p != q
    && Count(fs, q) - (if HasEntry(fs, q, n) then 1 else 0) >= LINK_MAX
  }

  ghost function RenameVerdict(fs: Fs, p: nat, m: string, q: nat, n: string): int {
    if DotName(m) then EINVAL
    else if DotName(n) then ENOTEMPTY
    else if p !in fs.folders then ENOTDIR
    else if !HasEntry(fs, p, m) then ENOENT
    else if q !in fs.folders then ENOTDIR
    else if RefusesMove(fs, p, m, q) then EINVAL
    else ReplaceVerdict(fs, p, m, q, n)
  }

  ghost function ReplaceVerdict(fs: Fs, p: nat, m: string, q: nat, n: string): int
    requires HasEntry(fs, p, m)
  {
    var s := fs.folders[p].entries[m];
    if !HasEntry(fs, q, n) then if TooManyLinks(fs, p, m, q, n) then EMLINK else 0
    else
      var t := fs.folders[q].entries[n];
      if t == s then 0
      else if s in fs.folders && t !in fs.folders then ENOTDIR
      else if s !in fs.folders && t in fs.folders then EISDIR
      else if s in fs.folders && !Empty(fs, t) then ENOTEMPTY
      else if TooManyLinks(fs, p, m, q, n) then EMLINK
      else 0
  }

  /** What a name leads to, "." and ".." included. */
  function Target(fs: Fs, p: nat, name: string): nat
    requires p in fs.folders && (DotName(name) || name in fs.folders[p].entries)
  {
    if name == "." then p else if name == ".." then fs.folders[p].up else fs.folders[p].entries[name]
  }

  class Tree {
    var fs: Fs

    /** Which of the writes fail. */
    const faults: seq<bool>
    /** The number of writes so far. */
    var tick: nat

    /** A new file system. */
    constructor (faults: seq<bool>)
      ensures Valid(fs) && fs.inodes.Keys == {ROOT} && this.faults == faults
    {
      fs := Fs(map[ROOT := Inode(true, 2)], map[ROOT := Folder(map[], ROOT)]);
      this.faults := faults;
      tick := 0;
      new;
      EmptyTree(fs);
    }

    /** The tree of an existing file system. */
    constructor Of(fs: Fs, faults: seq<bool>)
      requires Valid(fs)
      ensures this.fs == fs && this.faults == faults
    {
      this.fs := fs;
      this.faults := faults;
      tick := 0;
    }

    method Get(i: nat) returns (v: Node)
      requires i in fs.inodes
      ensures v.ino == i && Current(fs, v)
    {
      v := Node(i, fs.inodes[i]);
    }

    /** A write that may fail; the caller then rolls the operation back. */
    method Io() returns (ok: bool)
      modifies this`tick
      ensures tick == old(tick) + 1 && ok == Fine(faults, old(tick), tick)
    {
      ok := !Fails(faults, tick);
      tick := tick + 1;
    }

    /** `nextufs__write_inode_raw` stores the copy. */
    method WriteInode(v: Node) returns (ok: bool)
      modifies this
      ensures old(tick) <= tick && ok == Fine(faults, old(tick), tick)
      ensures ok ==> fs == Fs(old(fs).inodes[v.ino := v.inode], old(fs).folders)
    {
      fs := Fs(fs.inodes[v.ino := v.inode], fs.folders);
      ok := Io();
    }

    /** `nextufs__insert_dirent` also stores the directory's inode. */
    method InsertDirent(dir: Node, name: string, ino: nat) returns (ok: bool)
      requires dir.ino in fs.folders && name !in fs.folders[dir.ino].entries
      modifies this
      ensures old(tick) <= tick && ok == Fine(faults, old(tick), tick)
      ensures ok ==> fs == Fs(old(fs).inodes[dir.ino := dir.inode], PutEntry(old(fs).folders, dir.ino, name, ino))
    {
      fs := Fs(fs.inodes, PutEntry(fs.folders, dir.ino, name, ino));
      ok := WriteInode(dir);
    }

    /** `nextufs__remove_dirent` also stores the directory's inode. */
    method RemoveDirent(dir: Node, name: string) returns (ok: bool, removed: nat)
      requires dir.ino in fs.folders && name in fs.folders[dir.ino].entries
      modifies this
      ensures old(tick) <= tick && ok == Fine(faults, old(tick), tick)
      ensures removed == old(fs).folders[dir.ino].entries[name]
      ensures ok ==> fs == Fs(old(fs).inodes[dir.ino := dir.inode], DropEntry(old(fs).folders, dir.ino, name))
    {
      removed := fs.folders[dir.ino].entries[name];
      fs := Fs(fs.inodes, DropEntry(fs.folders, dir.ino, name));
      ok := WriteInode(dir);
    }

    /** `nextufs__remove_linked_inode` */
    method RemoveLinkedInode(target: Node) returns (ok: bool)
      requires target.inode.nlink > 0
      modifies this
      ensures old(tick) <= tick && ok == Fine(faults, old(tick), tick)
      ensures ok ==> fs == Fs(if target.inode.nlink == 1 then old(fs).inodes - {target.ino}
        else old(fs).inodes[target.ino := target.inode.(nlink := target.inode.nlink - 1)], old(fs).folders)
    {
      var v := target.(inode := target.inode.(nlink := target.inode.nlink - 1));
      if v.inode.nlink == 0 {
        fs := fs.(inodes := fs.inodes - {v.ino});
        ok := Io();
      } else {
        ok := WriteInode(v);
      }
    }

    /** `nextufs__remove_dir_inode` */
    method RemoveDirInode(parent: Node, target: Node) returns (ok: bool, v: Node)
      requires parent.inode.nlink > 0
      modifies this
      ensures old(tick) <= tick && ok == Fine(faults, old(tick), tick)
      ensures v == Node(parent.ino, parent.inode.(nlink := parent.inode.nlink - 1))
      ensures ok ==> fs == Fs((old(fs).inodes - {target.ino})[v.ino := v.inode], old(fs).folders - {target.ino})
    {
      v := parent.(inode := parent.inode.(nlink := parent.inode.nlink - 1));
      fs := Fs(fs.inodes - {target.ino}, fs.folders - {target.ino});
      ok := WriteInode(v);
    }

    /** `nextufs__directory_is_empty` */
    predicate DirectoryIsEmpty(x: nat, parent: nat)
      requires x in fs.folders
      reads this
    {
      fs.folders[x].entries == map[] && fs.folders[x].up == parent
    }

    /** `nextufs__directory_has_ancestor`: at most 1024 directories are looked at. */
    method HasAncestor(d: nat, a: nat) returns (yes: bool)
      requires Valid(fs) && d in fs.folders
      ensures yes <==> Ancestor(fs.folders, a, d, 1023) || !Climbs(fs.folders, d, 1023)
    {
      hide NodeOk, AllRooted;
      var cur := d;
      var depth: nat := 0;
      while depth < 1024
        invariant depth <= 1024 && cur in fs.folders
        invariant depth < 1024 ==>
          && (Ancestor(fs.folders, a, d, 1023) <==> Ancestor(fs.folders, a, cur, 1023 - depth))
          && (Climbs(fs.folders, d, 1023) <==> Climbs(fs.folders, cur, 1023 - depth))
        invariant depth == 1024 ==> !Climbs(fs.folders, d, 1023)
      {
        if cur == a {
          return true;
        }
        if cur == ROOT {
          return false;
        }
        UpInside(fs, cur);
        cur := fs.folders[cur].up;
        depth := depth + 1;
      }
      yes := true;
    }

    method Mkdir(p: nat, name: string, ino: nat) returns (rc: int)
      requires Valid(fs) && ino !in fs.inodes
      modifies this
      ensures old(tick) <= tick
      ensures rc == if Fine(faults, old(tick), tick) then MkdirVerdict(old(fs), p, name) else EIO
      ensures Valid(fs) && rc <= 0 && (rc < 0 ==> fs == old(fs))
      ensures rc == 0 ==> FreeName(old(fs), p, name) && fs == WithDir(old(fs), p, name, ino)
      ensures HasEntry(old(fs), p, name) && !DotName(name) ==> rc == EEXIST
    {
      hide Valid, Links, NodeOk;
      var was := fs;
      if DotName(name) {
        return EINVAL;
      }
      if p !in fs.folders {
        return ENOTDIR;
      }
      if name in fs.folders[p].entries {
        return EEXIST;
      }
      ValidNode(fs, p);
      ValidNode(fs, ino);
      var parent := Get(p);
      var v := Node(ino, Inode(true, 2));
      fs := fs.(folders := fs.folders[ino := Folder(map[], p)]);
      var ok := WriteInode(v);
      if ok {
        ok := InsertDirent(parent, name, ino);
      }
      rc := EIO;
      if ok && parent.inode.nlink >= LINK_MAX {
        rc, ok := EMLINK, false;
      }
      if ok {
        parent := parent.(inode := parent.inode.(nlink := parent.inode.nlink + 1));
        ok := WriteInode(parent);
      }
      if !ok {
        fs := was;
        return;
      }
      MkdirIs(was, p, name, ino);
      WithDirKeepsValid(was, p, name, ino);
      assert fs == WithDir(was, p, name, ino);
      rc := 0;
    }

    /** `nextufs_path_create_file`, `nextufs_path_mknod` and `nextufs_path_symlink`. */
    method Create(p: nat, name: string, ino: nat) returns (rc: int)
      requires Valid(fs) && ino !in fs.inodes
      modifies this
      ensures old(tick) <= tick
      ensures rc == if Fine(faults, old(tick), tick) then CreateVerdict(old(fs), p, name) else EIO
      ensures Valid(fs) && rc <= 0 && (rc < 0 ==> fs == old(fs))
      ensures rc == 0 ==> FreeName(old(fs), p, name) && fs == WithFile(old(fs), p, name, ino)
      ensures HasEntry(old(fs), p, name) && !DotName(name) ==> rc == EEXIST
    {
      hide Valid, Links, NodeOk;
      var was := fs;
      if DotName(name) {
        return EINVAL;
      }
      if p !in fs.folders {
        return ENOTDIR;
      }
      if name in fs.folders[p].entries {
        return EEXIST;
      }
      ValidNode(fs, p);
      var parent := Get(p);
      var ok := WriteInode(Node(ino, Inode(false, 1)));
      if ok {
        ok := InsertDirent(parent, name, ino);
      }
      if !ok {
        fs := was;
        return EIO;
      }
      WithFileIs(was, p, name, ino);
      assert fs == WithFile(was, p, name, ino);
      rc := 0;
    }

    /** `nextufs_path_link` */
    method Link(x: nat, p: nat, name: string) returns (rc: int)
      requires Valid(fs) && x in fs.inodes
      modifies this
      ensures old(tick) <= tick
      ensures rc == if Fine(faults, old(tick), tick) then LinkVerdict(old(fs), x, p, name) else EIO
      ensures Valid(fs) && rc <= 0 && (rc < 0 ==> fs == old(fs))
      ensures rc == 0 ==> !old(fs).inodes[x].dir && FreeName(old(fs), p, name) && fs == WithFile(old(fs), p, name, x)
      ensures old(fs).inodes[x].dir && !DotName(name) ==> rc == EPERM
    {
      hide Valid, Links, NodeOk;
      var was := fs;
      if DotName(name) {
        return EINVAL;
      }
      ValidNode(fs, x);
      var source := Get(x);
      if source.inode.dir {
        return EPERM;
      }
      if p !in fs.folders {
        return ENOTDIR;
      }
      if name in fs.folders[p].entries {
        return EEXIST;
      }
      if source.inode.nlink >= LINK_MAX {
        return EMLINK;
      }
      ValidNode(fs, p);
      var parent := Get(p);
      source := source.(inode := source.inode.(nlink := source.inode.nlink + 1));
      var ok := WriteInode(source);
      if ok {
        ok := InsertDirent(parent, name, x);
      }
      if !ok {
        fs := was;
        return EIO;
      }
      WithFileIs(was, p, name, x);
      assert fs == WithFile(was, p, name, x);
      rc := 0;
    }

    /** `nextufs_path_unlink` */
    method Unlink(p: nat, name: string) returns (rc: int)
      requires Valid(fs)
      modifies this
      ensures old(tick) <= tick
      ensures rc == if Fine(faults, old(tick), tick) then UnlinkVerdict(old(fs), p, name) else EIO
      ensures Valid(fs) && rc <= 0 && (rc < 0 ==> fs == old(fs))
      ensures rc == 0 ==> FileEntry(old(fs), p, name) && fs == WithoutFile(old(fs), p, name)
      ensures EmptyDirEntry(old(fs), p, name) && !DotName(name) ==> rc == EISDIR
    {
      hide Valid, Links, NodeOk;
      var was := fs;
      if DotName(name) {
        return EINVAL;
      }
      if p !in fs.folders {
        return ENOTDIR;
      }
      if name !in fs.folders[p].entries {
        return ENOENT;
      }
      ValidEntry(fs, p, name);
      var parent := Get(p);
      var target := Get(fs.folders[p].entries[name]);
      if target.inode.dir {
        return EISDIR;
      }
      var ok, removed := RemoveDirent(parent, name);
      if ok {
        ok := RemoveLinkedInode(target);
      }
      if !ok {
        fs := was;
        return EIO;
      }
      WithoutFileIs(was, p, name);
      assert fs == WithoutFile(was, p, name);
      rc := 0;
    }

    /** `nextufs_path_rmdir` */
    method Rmdir(p: nat, name: string) returns (rc: int)
      requires Valid(fs)
      modifies this
      ensures old(tick) <= tick
      ensures rc == if Fine(faults, old(tick), tick) then RmdirVerdict(old(fs), p, name) else EIO
      ensures Valid(fs) && rc <= 0 && (rc < 0 ==> fs == old(fs))
      ensures rc == 0 ==> EmptyDirEntry(old(fs), p, name) && fs == WithoutDir(old(fs), p, name)
      ensures HasEntry(old(fs), p, name) && !EmptyDirEntry(old(fs), p, name) ==> rc < 0
    {
      hide Valid, Links, NodeOk;
      var was := fs;
      if p !in fs.folders {
        return ENOTDIR;
      }
      if !DotName(name) && name !in fs.folders[p].entries {
        return ENOENT;
      }
      TargetOk(fs, p, name);
      var parent := Get(p);
      var target := Get(Target(fs, p, name));
      if !target.inode.dir {
        return ENOTDIR;
      }
      if DotName(name) {
        DotTarget(fs, p, name);
      }
      var empty := DirectoryIsEmpty(target.ino, p);
      if target.inode.nlink != 2 || !empty {
        return ENOTEMPTY;
      }
      if DotName(name) {
        return EINVAL;
      }
      var ok, removed := RemoveDirent(parent, name);
      if ok {
        ok, parent := RemoveDirInode(parent, target);
      }
      if !ok {
        fs := was;
        return EIO;
      }
      WithoutDirIs(was, p, name);
      assert fs == WithoutDir(was, p, name);
      rc := 0;
    }

    /** `nextufs_path_rename`: entry `m` of `p` becomes entry `n` of `q`, replacing what is there. */
    method Rename(p: nat, m: string, q: nat, n: string) returns (rc: int)
      requires Valid(fs)
      modifies this
      ensures old(tick) <= tick
      ensures rc == if Fine(faults, old(tick), tick) then RenameVerdict(old(fs), p, m, q, n) else EIO
      ensures Valid(fs) && rc <= 0 && (rc < 0 ==> fs == old(fs))
      ensures rc == 0 ==> Renamed(old(fs), p, m, q, n, fs)
      ensures Cyclic(old(fs), p, m, q) ==> rc < 0
      ensures rc == EINVAL && !DotName(m) ==> Cyclic(old(fs), p, m, q) || !Climbs(old(fs).folders, q, 1023)
      ensures HasEntry(old(fs), p, m) && q in old(fs).folders && !DotName(m) && !DotName(n) ==>
        (rc == EINVAL <==> RefusesMove(old(fs), p, m, q))
    {
      hide Valid, Links, NodeOk, Moved, WithoutDir, WithoutFile, MovedFolders, Ancestor, Climbs;
      var was := fs;
      if DotName(m) {
        return EINVAL;
      }
      if DotName(n) {
        return ENOTEMPTY;
      }
      if p !in fs.folders {
        return ENOTDIR;
      }
      if m !in fs.folders[p].entries {
        return ENOENT;
      }
      if q !in fs.folders {
        return ENOTDIR;
      }
      ValidEntry(fs, p, m);
      ValidNode(fs, q);
      var source := Get(fs.folders[p].entries[m]);
      var oldParent := Get(p);
      var newParent := Get(q);
      var moving := source.inode.dir;
      if moving {
        var below := HasAncestor(q, source.ino);
        if below {
          CyclicIf(fs, p, m, q, 1023);
          return EINVAL;
        }
        NotCyclic(fs, p, m, q, 1023);
        NotBelow(fs, source.ino, q, 1023);
      }
      var ok := true;
      assert source.ino != q;
      if n in fs.folders[q].entries {
        ValidEntry(fs, q, n);
        var existing := Get(fs.folders[q].entries[n]);
        if existing.ino == source.ino {
          assert Renamed(was, p, m, q, n, fs);
          return 0;
        }
        if moving != existing.inode.dir {
          return if moving then ENOTDIR else EISDIR;
        }
        if moving {
          EmptyCount(fs, existing.ino);
          var empty := DirectoryIsEmpty(existing.ino, q);
          if existing.inode.nlink > 2 || !empty {
            return ENOTEMPTY;
          }
        }
        ok, newParent := Replace(newParent, n, existing);
        if !ok {
          fs := was;
          return EIO;
        }
        ReplacedKeeps(was, p, m, q, n, fs);
        if moving {
          ReplacedChain(was, q, n, fs, source.ino, 1023);
        }
      }
      rc := Move(source, oldParent, m, newParent, n);
      if rc < 0 {
        fs := was;
      }
    }

    /** The target of a rename goes away. */
    method Replace(dir: Node, n: string, existing: Node) returns (ok: bool, v: Node)
      requires Valid(fs) && Current(fs, dir) && Current(fs, existing)
      requires HasEntry(fs, dir.ino, n) && fs.folders[dir.ino].entries[n] == existing.ino
      requires existing.inode.dir ==> EmptyDirEntry(fs, dir.ino, n)
      modifies this
      ensures old(tick) <= tick && ok == Fine(faults, old(tick), tick)
      ensures v.ino == dir.ino && (ok ==> Current(fs, v))
      ensures ok ==> v.inode.nlink == dir.inode.nlink - if existing.inode.dir then 1 else 0
      ensures ok ==> Replaced(old(fs), dir.ino, n, fs)
    {
      hide Valid, NodeOk, Links;
      v := dir;
      ghost var was := fs;
      ValidEntry(fs, dir.ino, n);
      var removed;
      ok, removed := RemoveDirent(dir, n);
      if !ok {
        return;
      }
      if existing.inode.dir {
        WithoutDirIs(was, dir.ino, n);
        ok, v := RemoveDirInode(dir, existing);
        assert ok ==> fs == WithoutDir(was, dir.ino, n);
      } else {
        WithoutFileIs(was, dir.ino, n);
        ok := RemoveLinkedInode(existing);
        assert ok ==> fs == WithoutFile(was, dir.ino, n);
      }
    }

    /** The second half of a rename, when the new name is free. The inode copies are written back as the
        steps go, so each must be current when it is written. */
    method Move(source: Node, oldParent: Node, m: string, newParent: Node, n: string) returns (rc: int)
      requires Valid(fs) && Current(fs, source) && Current(fs, newParent)
      requires oldParent.ino == newParent.ino || Current(fs, oldParent)
      requires Movable(fs, oldParent.ino, m, newParent.ino, n)
      requires fs.folders[oldParent.ino].entries[m] == source.ino
      requires source.inode.dir ==>
        Climbs(fs.folders, newParent.ino, 1023) && !Ancestor(fs.folders, source.ino, newParent.ino, 1023)
      modifies this
      ensures old(tick) <= tick
      ensures rc == if !Fine(faults, old(tick), tick) then EIO
        else if source.inode.dir && oldParent.ino != newParent.ino && newParent.inode.nlink >= LINK_MAX then EMLINK
        else 0
      ensures rc == 0 ==> Valid(fs) && fs == Moved(old(fs), oldParent.ino, m, newParent.ino, n)
    {
      hide Valid, NodeOk, Links, Ancestor, Climbs;
      ghost var was, p, q, s := fs, oldParent.ino, newParent.ino, source.ino;
      ValidEntry(fs, p, m);
      NotBelow(fs, s, q, 1023);
      MovedKeepsValid(fs, p, m, q, n, 1023);
      var from, to := oldParent, newParent;
      var changing := from.ino != to.ino;
      rc := EIO;
      var ok := InsertDirent(to, n, source.ino);
      if !ok {
        return;
      }
      if !changing {
        from := to;
      }
      var removed;
      ok, removed := RemoveDirent(from, m);
      if !ok {
        return;
      }
      assert fs == Fs(was.inodes, MovedFolders(was.folders, p, m, q, n, s));
      if source.inode.dir && changing {
        fs := fs.(folders := PutUp(fs.folders, source.ino, to.ino));
        ok := WriteInode(source);
        if ok {
          from := from.(inode := from.inode.(nlink := from.inode.nlink - 1));
          ok := WriteInode(from);
        }
        if ok && to.inode.nlink >= LINK_MAX {
          return EMLINK;
        }
        if ok {
          to := to.(inode := to.inode.(nlink := to.inode.nlink + 1));
          ok := WriteInode(to);
        }
        if !ok {
          return;
        }
      }
      ok := WriteInode(source);
      if !ok {
        return;
      }
      assert fs == Moved(was, p, m, q, n);
      rc := 0;
    }
  }

  /** The entry is gone, with its inode if that was the last link. */
  ghost predicate Replaced(fs: Fs, d: nat, n: string, gs: Fs) {
    (FileEntry(fs, d, n) && gs == WithoutFile(fs, d, n)) || (EmptyDirEntry(fs, d, n) && gs == WithoutDir(fs, d, n))
  }

  /** The outcome of a successful rename: nothing, when both names are links to the same inode; otherwise
      the target is removed as by unlink or rmdir, and the entry moves. */
  ghost predicate Renamed(fs: Fs, p: nat, m: string, q: nat, n: string, gs: Fs) {
    HasEntry(fs, p, m) &&
    if HasEntry(fs, q, n) then
      (fs.folders[q].entries[n] == fs.folders[p].entries[m] && gs == fs)
      || exists base :: Replaced(fs, q, n, base) && Movable(base, p, m, q, n) && gs == Moved(base, p, m, q, n)
    else Movable(fs, p, m, q, n) && gs == Moved(fs, p, m, q, n)
  }

  /** A directory is not moved below itself, and not to more than 1023 levels below the root. */
  ghost predicate RefusesMove(fs: Fs, p: nat, m: string, q: nat)
    requires HasEntry(fs, p, m)
  {
    fs.folders[p].entries[m] in fs.folders && (Cyclic(fs, p, m, q) || !Climbs(fs.folders, q, 1023))
  }

  /** The entry is a directory on the new parent's chain of "..". */
  ghost predicate Cyclic(fs: Fs, p: nat, m: string, q: nat) {
    HasEntry(fs, p, m) && fs.folders[p].entries[m] in fs.folders && q in fs.folders
    && exists k: nat :: Ancestor(fs.folders, fs.folders[p].entries[m], q, k)
  }

  lemma {:induction false} MovedKeepsValid(fs: Fs, p: nat, m: string, q: nat, n: string, k: nat)
    requires Valid(fs) && Movable(fs, p, m, q, n)
    requires var s := fs.folders[p].entries[m];
      s in fs.inodes && (fs.inodes[s].dir ==> Climbs(fs.folders, q, k) && !Ancestor(fs.folders, s, q, k))
    ensures Valid(Moved(fs, p, m, q, n))
  {
    NodesMean(fs, fs.folders[p].entries[m]);
    MovedKeeps(fs, p, m, q, n, k);
  }

  /** On a chain that ends within `k` steps every ancestor is found within `k` steps. */
  lemma {:induction false} AncestorWithin(fo: Folders, a: nat, d: nat, j: nat, k: nat)
    requires Climbs(fo, d, k) && Ancestor(fo, a, d, j)
    ensures Ancestor(fo, a, d, k)
    decreases j
  {
    if a != d {
      AncestorWithin(fo, a, fo[d].up, j - 1, k - 1);
    }
  }

  lemma {:induction false} NotCyclic(fs: Fs, p: nat, m: string, q: nat, k: nat)
    requires HasEntry(fs, p, m) && Climbs(fs.folders, q, k) && !Ancestor(fs.folders, fs.folders[p].entries[m], q, k)
    ensures !Cyclic(fs, p, m, q)
  {
    if Cyclic(fs, p, m, q) {
      var j: nat :| Ancestor(fs.folders, fs.folders[p].entries[m], q, j);
      AncestorWithin(fs.folders, fs.folders[p].entries[m], q, j, k);
    }
  }

  lemma {:induction false} CyclicIf(fs: Fs, p: nat, m: string, q: nat, k: nat)
    requires HasEntry(fs, p, m) && fs.folders[p].entries[m] in fs.folders && q in fs.folders
    ensures Ancestor(fs.folders, fs.folders[p].entries[m], q, k) ==> Cyclic(fs, p, m, q)
  {
  }

  lemma {:induction false} AncestorClimbs(fo: Folders, a: nat, d: nat, j: nat, k: nat)
    requires Climbs(fo, d, k) && Ancestor(fo, a, d, j)
    ensures Climbs(fo, a, k)
    decreases j
  {
    if a != d {
      AncestorClimbs(fo, a, fo[d].up, j - 1, k - 1);
      ClimbsMore(fo, a, k - 1, k);
    }
  }

  lemma {:induction false} NoCycle(fo: Folders, d: nat, j: nat, k: nat)
    requires Climbs(fo, d, k) && d in fo && d != ROOT
    ensures !Ancestor(fo, d, fo[d].up, j)
    decreases k
  {
    if Ancestor(fo, d, fo[d].up, j) {
      AncestorClimbs(fo, d, fo[d].up, j, k - 1);
      NoCycle(fo, d, j, k - 1);
    }
  }

  /** In a valid tree no directory is its own ancestor. */
  lemma {:induction false} NeverOwnAncestor(fs: Fs, d: nat, j: nat)
    requires Valid(fs) && d in fs.folders && d != ROOT
    ensures !Ancestor(fs.folders, d, fs.folders[d].up, j)
  {
    var k: nat :| Climbs(fs.folders, d, k);
    NoCycle(fs.folders, d, j, k);
  }

  /** In a valid tree a directory other than the root has exactly one name, and it is in its "..". */
  lemma {:induction false} OneName(fs: Fs, c: nat)
    requires Valid(fs) && c in fs.folders && c != ROOT
    ensures exists n :: HasEntry(fs, fs.folders[c].up, n) && Refs(fs.folders, c) == {(fs.folders[c].up, n)}
  {
    NodesMean(fs, c);
    var e, n :| (e, n) in Refs(fs.folders, c);
    NodesMean(fs, e);
    assert EntryOk(fs, e, n) && HasEntry(fs, e, n);
    forall d, m | (d, m) in Refs(fs.folders, c)
      ensures (d, m) == (e, n)
    {
      TwoPairs(Refs(fs.folders, c), (e, n), (d, m));
    }
  }

  lemma {:induction false} TwoPairs<T>(s: set<T>, x: T, y: T)
    requires |s| == 1 && x in s && y in s
    ensures x == y
  {
    SubsetSize({x, y}, s);
  }

  /** Without an empty directory `x`, the chains of the others are the same. */
  lemma {:induction false} AncestorWithout(fo: Folders, a: nat, d: nat, k: nat, x: nat)
    requires d != x && forall c | c in fo :: fo[c].up != x
    ensures Ancestor(fo - {x}, a, d, k) ==> Ancestor(fo, a, d, k)
    decreases k
  {
    if k > 0 && d in fo {
      AncestorWithout(fo, a, fo[d].up, k - 1, x);
    }
  }

  /** The chain from `q` when a file or an empty directory below it is removed. */
  lemma {:induction false} ReplacedChain(fs: Fs, q: nat, n: string, base: Fs, s: nat, k: nat)
    requires Valid(fs) && Replaced(fs, q, n, base) && Climbs(fs.folders, q, k) && !Ancestor(fs.folders, s, q, k)
    ensures Climbs(base.folders, q, k) && !Ancestor(base.folders, s, q, k)
  {
    hide NodeOk, NodesOk, AllRooted, SameUps, Climbs, Ancestor;
    var fo := fs.folders;
    var go := DropEntry(fo, q, n);
    DropSame(fo, q, n);
    SameChain(fo, go, q, k, s);
    if FileEntry(fs, q, n) && base == WithoutFile(fs, q, n) {
      assert base.folders == go;
    } else {
      var x := fo[q].entries[n];
      WithoutDirNode(fs, q, n, q);
      ClimbsWithout(go, q, k, x);
      AncestorWithout(go, s, q, k, x);
    }
  }

  /** After the target is removed the move is still possible, and the inode copies read before are current. */
  lemma {:induction false} ReplacedKeeps(fs: Fs, p: nat, m: string, q: nat, n: string, base: Fs)
    requires Valid(fs) && HasEntry(fs, p, m) && HasEntry(fs, q, n) && Replaced(fs, q, n, base) && !DotName(n)
    requires fs.folders[q].entries[n] != fs.folders[p].entries[m]
    ensures Valid(base) && Movable(base, p, m, q, n)
    ensures base.folders[p].entries[m] == fs.folders[p].entries[m]
    ensures p in fs.inodes && (p != q ==> base.inodes[p] == fs.inodes[p])
    ensures var s := fs.folders[p].entries[m];
      s in fs.inodes && s in base.inodes && (s != q ==> base.inodes[s] == fs.inodes[s])
  {
    hide Valid, NodeOk, Links;
    var s := fs.folders[p].entries[m];
    ValidEntry(fs, p, m);
    ValidEntry(fs, q, n);
    if FileEntry(fs, q, n) && base == WithoutFile(fs, q, n) {
      WithoutFileIs(fs, q, n);
    } else {
      WithoutDirIs(fs, q, n);
    }
    ValidNode(base, p);
  }

  lemma {:induction false} NotBelow(fs: Fs, s: nat, q: nat, k: nat)
    ensures !Ancestor(fs.folders, s, q, k) ==> s != q
  {
  }

  lemma {:induction false} WithFileIs(fs: Fs, p: nat, name: string, x: nat)
    requires Valid(fs) && FreeName(fs, p, name) && (x in fs.inodes ==> !fs.inodes[x].dir)
    ensures p != x && fs.inodes[x := Inode(false, Count(fs, x) + 1)][p := fs.inodes[p]] == WithFile(fs, p, name, x).inodes
    ensures Valid(WithFile(fs, p, name, x))
  {
    WithFileKeeps(fs, p, name, x);
    NodesMean(fs, p);
  }

  /** The entry of a directory names an inode; a directory named there is not the directory itself. */
  lemma {:induction false} ValidEntry(fs: Fs, d: nat, n: string)
    requires Valid(fs) && HasEntry(fs, d, n)
    ensures var i := fs.folders[d].entries[n];
      && d in fs.inodes && fs.inodes[d].dir && fs.inodes[d].nlink > 0
      && i in fs.inodes && i != ROOT && i != d && fs.inodes[i].nlink > 0
      && (i in fs.folders <==> fs.inodes[i].dir)
      && (i in fs.folders ==> fs.folders[i].up == d)
  {
    hide Refs, Ups;
    NodesMean(fs, d);
    NodesMean(fs, fs.folders[d].entries[n]);
    assert EntryOk(fs, d, n);
    if fs.folders[d].entries[n] == d {
      var k: nat :| Climbs(fs.folders, d, k);
      NoLoop(fs.folders, d, k);
    }
  }

  /** In a valid tree a directory without entries is linked twice: by its name and by its ".", or as the root
      by its own "." and "..". */
  lemma {:induction false} EmptyCount(fs: Fs, x: nat)
    requires Valid(fs) && x in fs.folders
    ensures x in fs.inodes && (Empty(fs, x) ==> fs.inodes[x].nlink == 2)
  {
    NodesMean(fs, x);
    var fo := fs.folders;
    if Empty(fs, x) {
      forall c | c in fo && fo[c].up == x
        ensures c == ROOT == x
      {
        UpNamed(fs, c);
      }
      assert Ups(fo, x) == if x == ROOT then {ROOT} else {};
    }
  }

  /** A directory other than the root is named in its "..". */
  lemma {:induction false} UpNamed(fs: Fs, c: nat)
    requires Valid(fs) && c in fs.folders
    ensures fs.folders[c].up in fs.folders && (c != ROOT ==> !Empty(fs, fs.folders[c].up))
  {
    NodesMean(fs, c);
    if c != ROOT {
      var e, m :| (e, m) in Refs(fs.folders, c);
      NodesMean(fs, e);
      assert EntryOk(fs, e, m);
    }
  }

  lemma {:induction false} TargetOk(fs: Fs, p: nat, name: string)
    requires Valid(fs) && p in fs.folders && (DotName(name) || HasEntry(fs, p, name))
    ensures p in fs.inodes && fs.inodes[p].nlink > 0
    ensures var x := Target(fs, p, name);
      && x in fs.inodes && (x in fs.folders <==> fs.inodes[x].dir)
      && (Empty(fs, x) ==> fs.inodes[x].nlink == 2)
      && (DotName(name) ==> x in fs.folders)
      && (!DotName(name) && x in fs.folders ==> x != p && fs.folders[x].up == p)
  {
    UpInside(fs, p);
    var x := Target(fs, p, name);
    if !DotName(name) {
      ValidEntry(fs, p, name);
    }
    ValidNode(fs, p);
    ValidNode(fs, x);
    if x in fs.folders {
      EmptyCount(fs, x);
    }
  }

  /** Only the empty root passes the emptiness check under the name "." or "..". */
  lemma {:induction false} DotTarget(fs: Fs, p: nat, name: string)
    requires Valid(fs) && p in fs.folders && DotName(name) && Target(fs, p, name) in fs.folders
    ensures var x := Target(fs, p, name);
      Empty(fs, x) && fs.folders[x].up == p <==> p == ROOT && Empty(fs, ROOT)
  {
    var k: nat :| Climbs(fs.folders, p, k);
    if p != ROOT {
      NoLoop(fs.folders, p, k);
      UpNamed(fs, p);
    }
  }

  lemma {:induction false} NoLoop(fo: Folders, d: nat, k: nat)
    requires Climbs(fo, d, k) && d in fo && d != ROOT
    ensures fo[d].up != d
    decreases k
  {
    if fo[d].up == d {
      NoLoop(fo, d, k - 1);
    }
  }

  lemma {:induction false} WithoutFileIs(fs: Fs, p: nat, name: string)
    requires Valid(fs) && FileEntry(fs, p, name)
    ensures p in fs.inodes && fs.inodes[p := fs.inodes[p]] == fs.inodes
    ensures Valid(WithoutFile(fs, p, name))
  {
    WithoutFileKeeps(fs, p, name);
    NodesMean(fs, p);
  }

  lemma {:induction false} WithoutDirIs(fs: Fs, p: nat, name: string)
    requires Valid(fs) && EmptyDirEntry(fs, p, name)
    ensures var x := fs.folders[p].entries[name];
      x != p && (fs.inodes[p := fs.inodes[p]] - {x})[p := fs.inodes[p].(nlink := fs.inodes[p].nlink - 1)]
        == WithoutDir(fs, p, name).inodes
    ensures Valid(WithoutDir(fs, p, name))
  {
    WithoutDirKeeps(fs, p, name);
  }

  lemma {:induction false} MkdirIs(fs: Fs, p: nat, name: string, x: nat)
    requires FreeName(fs, p, name) && x !in fs.folders && p != x
    ensures PutEntry(fs.folders[x := Folder(map[], p)], p, name, x) == WithDir(fs, p, name, x).folders
    ensures fs.inodes[x := Inode(true, 2)][p := fs.inodes[p]][p := fs.inodes[p].(nlink := fs.inodes[p].nlink + 1)]
      == WithDir(fs, p, name, x).inodes
  {
  }

  lemma {:induction false} WithDirKeepsValid(fs: Fs, p: nat, name: string, x: nat)
    requires Valid(fs) && FreeName(fs, p, name) && x !in fs.inodes
    ensures Valid(WithDir(fs, p, name, x))
  {
    WithDirKeeps(fs, p, name, x);
  }

  lemma {:induction false} ValidNode(fs: Fs, d: nat)
    requires Valid(fs)
    ensures d in fs.folders <==> d in fs.inodes && fs.inodes[d].dir
    ensures d in fs.inodes ==> fs.inodes[d].nlink > 0
    ensures ROOT in fs.folders
  {
    NodesMean(fs, d);
  }

  lemma {:induction false} UpInside(fs: Fs, d: nat)
    requires Valid(fs) && d in fs.folders
    ensures fs.folders[d].up in fs.folders
  {
    NodesMean(fs, d);
  }

  lemma {:induction false} EmptyTree(fs: Fs)
    requires fs == Fs(map[ROOT := Inode(true, 2)], map[ROOT := Folder(map[], ROOT)])
    ensures Valid(fs)
  {
    var fo := fs.folders;
    assert Refs(fo, ROOT) == {} && Ups(fo, ROOT) == {ROOT};
    assert Climbs(fo, ROOT, 0);
    forall i
      ensures NodeOk(fs, i)
    {
    }
  }
}
