/** A directory's bytes as a folder of the directory tree: what lookups in the records mean there, and
    that insertion and removal of records are the entry changes that the tree's operations are made of. */
module DirFolders {
  import opened Faults
  import opened Options
  import opened Scale
  import opened DirRecords
  import opened DirRemoval
  import opened Directories
  import N = Namespace

  const DOT: seq<Byte> := [46]
  const DOTDOT: seq<Byte> := [46, 46]

  predicate Dots(name: seq<Byte>) {
    name == DOT || name == DOTDOT
  }

  /** A name of the tree from its bytes. */
  function Text(name: seq<Byte>): (s: string)
    ensures |s| == |name|
  {
    seq(|name|, i requires 0 <= i < |name| => name[i] as char)
  }

  lemma {:induction false} TextDiffers(a: seq<Byte>, b: seq<Byte>)
    ensures Text(a) == Text(b) <==> a == b
  {
    if Text(a) == Text(b) {
      forall i | 0 <= i < |a|
        ensures a[i] == b[i]
      {
        assert Text(a)[i] == Text(b)[i];
      }
    }
  }

  /** The inode a folder has for a name; 0 for none. */
  function Entry(f: N.Folder, name: seq<Byte>): nat {
    if Text(name) in f.entries then f.entries[Text(name)] else 0
  }

  /** The directory `b` of inode `self` has the entries and the ".." of folder `f`, and its ".". */
  ghost predicate Represents(b: seq<Byte>, self: nat, f: N.Folder) {
    && Tiled(b) && |b| % DIRBLKSIZ == 0
    && Find(Listing(b), DOT) == self && Find(Listing(b), DOTDOT) == f.up
    && forall name: seq<Byte> | !Dots(name) :: Find(Listing(b), name) == Entry(f, name)
  }

  /** Folder `f` with one entry more, and with one less: `N.PutEntry` and `N.DropEntry` at one directory. */
  function With(f: N.Folder, name: seq<Byte>, ino: nat): N.Folder {
    f.(entries := f.entries[Text(name) := ino])
  }

  function Without(f: N.Folder, name: seq<Byte>): N.Folder {
    f.(entries := f.entries - {Text(name)})
  }

  lemma {:induction false} TreeEntries(fo: N.Folders, d: nat, name: seq<Byte>, ino: nat)
    requires d in fo
    ensures N.PutEntry(fo, d, Text(name), ino) == fo[d := With(fo[d], name, ino)]
    ensures N.DropEntry(fo, d, Text(name)) == fo[d := Without(fo[d], name)]
  {
  }

  lemma {:induction false} InsertRefines(b: seq<Byte>, c: seq<Byte>, self: nat, f: N.Folder, name: seq<Byte>, ino: nat)
    requires Represents(b, self, f) && !Dots(name) && Tiled(c) && |c| % DIRBLKSIZ == 0
    requires forall other :: Find(Listing(c), other) == if other == name then ino else Find(Listing(b), other)
    ensures Represents(c, self, With(f, name, ino))
  {
    hide Find, Tiled, Listing, Text;
    forall other: seq<Byte> | !Dots(other)
      ensures Find(Listing(c), other) == Entry(With(f, name, ino), other)
    {
      TextDiffers(other, name);
    }
  }

  /** Removing a record removes the entry exactly when it removes the name and nothing else. */
  lemma {:induction false} RemoveRefines(b: seq<Byte>, c: seq<Byte>, self: nat, f: N.Folder, name: seq<Byte>)
    requires Represents(b, self, f) && !Dots(name) && |c| == |b|
    ensures Represents(c, self, Without(f, name)) <==> RemovesOnly(b, c, name)
  {
    hide Find, Tiled, Listing, Text;
    forall other: seq<Byte>
      ensures !Dots(other) ==> Entry(Without(f, name), other) == if other == name then 0 else Find(Listing(b), other)
    {
      TextDiffers(other, name);
    }
    if Represents(c, self, Without(f, name)) {
      forall other
        ensures Find(Listing(c), other) == if other == name then 0 else Find(Listing(b), other)
      {
        assert !Dots(other) ==> Find(Listing(c), other) == Entry(Without(f, name), other);
      }
    }
  }

  /** A lookup in the records is a lookup in the folder. */
  method LookupEntry(dir: Directory, name: seq<Byte>, ghost self: nat, ghost f: N.Folder) returns (ok: bool, ino: nat)
    requires Represents(dir.data, self, f)
    modifies dir`tick
    ensures old(dir.tick) <= dir.tick && ok == Fine(dir.faults, old(dir.tick), dir.tick)
    ensures ok && !Dots(name) ==> ino == Entry(f, name)
    ensures ok && name == DOTDOT ==> ino == f.up
  {
    ok, ino := dir.Lookup(name);
  }

  /** The tree's `InsertDirent`, on bytes. */
  method InsertEntry(dir: Directory, name: seq<Byte>, ino: nat, ghost self: nat, ghost f: N.Folder) returns (ok: bool)
    requires Represents(dir.data, self, f) && NameOk(name) && !Dots(name) && Entry(f, name) == 0 && 0 < ino < 0x1_0000_0000
    modifies dir
    ensures old(dir.tick) <= dir.tick && ok == Fine(dir.faults, old(dir.tick), dir.tick)
    ensures ok ==> Represents(dir.data, self, With(f, name, ino))
    ensures !ok ==> Represents(dir.data, self, f)
  {
    hide Find, Tiled, Listing, Text, InsertRecs;
    ghost var b := dir.data;
    ok := dir.Insert(name, ino);
    if ok {
      InsertRefines(b, dir.data, self, f, name, ino);
    }
  }

  /** The tree's `RemoveDirent`, on bytes. For a name that occurs once the result is the folder without the
      entry exactly when the removal is safe: the tree's operations are right on disk under that condition. */
  method RemoveEntry(dir: Directory, name: seq<Byte>, ghost self: nat, ghost f: N.Folder)
    returns (ok: bool, ino: nat, ghost k: nat)
    requires Represents(dir.data, self, f) && !Dots(name)
    modifies dir
    ensures !ok ==> Represents(dir.data, self, f)
    ensures old(dir.tick) <= dir.tick
    ensures ok <==> Fine(dir.faults, old(dir.tick), dir.tick) && Entry(f, name) != 0
    ensures ok ==> ino == Entry(f, name) != 0 && k < |Listing(old(dir.data))|
    ensures ok && Find(Listing(old(dir.data))[k + 1..], name) == 0 ==>
      (Represents(dir.data, self, Without(f, name)) <==> SafeToRemove(old(dir.data), k))
  {
    hide Find, Tiled, Listing, Text, SafeToRemove, RemovesOnly, RemoveBytes, RemoveRecs, Adjacent;
    ghost var b := dir.data;
    ok, ino, k := dir.Remove(name);
    if ok {
      RemoveRefines(b, dir.data, self, f, name);
      FoundFirst(Listing(b), k, name);
    }
  }

  lemma {:induction false} FoundFirst(rs: seq<Ent>, k: nat, name: seq<Byte>)
    requires k < |rs| && rs[k].ino != 0 && rs[k].name == name && Find(rs[..k], name) == 0
    ensures Find(rs, name) == rs[k].ino
  {
    assert rs == rs[..k] + ([rs[k]] + rs[k + 1..]);
    FindJoin(rs[..k], [rs[k]] + rs[k + 1..], name);
    FindHead(rs[k], rs[k + 1..], name);
  }
}
