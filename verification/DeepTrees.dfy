/** A chain of nested directories, and a rename into its deepest one. */
module DeepTrees {
  import opened Namespace

  /** The inode of the directory at depth `k`. */
  function At(k: nat): nat {
    ROOT + k
  }

  /** `n` directories, each inside the one before it. */
  ghost function Chain(n: nat): (fs: Fs)
    ensures At(n) in fs.folders && At(n) in fs.inodes && fs.folders[At(n)].entries == map[]
    ensures forall i | i in fs.inodes || i in fs.folders :: i <= At(n)
  {
    if n == 0 then Fs(map[ROOT := Inode(true, 2)], map[ROOT := Folder(map[], ROOT)])
    else WithDir(Chain(n - 1), At(n - 1), "d", At(n))
  }

  lemma {:induction false} ChainValid(n: nat)
    ensures Valid(Chain(n))
  {
    if n == 0 {
      EmptyTree(Chain(0));
    } else {
      ChainValid(n - 1);
      WithDirKeepsValid(Chain(n - 1), At(n - 1), "d", At(n));
    }
  }

  /** Each directory of the chain has the one before it as "..". */
  lemma {:induction false} ChainUp(n: nat, k: nat)
    requires 0 < k <= n
    ensures At(k) in Chain(n).folders && Chain(n).folders[At(k)].up == At(k - 1)
  {
    UpStep(n, k);
    if k < n {
      ChainUp(n - 1, k);
    }
  }

  lemma {:induction false} UpStep(n: nat, k: nat)
    requires 0 < k <= n
    ensures k == n ==> At(n) in Chain(n).folders && Chain(n).folders[At(n)].up == At(n - 1)
    ensures k < n && At(k) in Chain(n - 1).folders ==>
      At(k) in Chain(n).folders && Chain(n).folders[At(k)].up == Chain(n - 1).folders[At(k)].up
  {
  }

  /** The chain with one more directory beside it. */
  ghost function Beside(n: nat): Fs
    requires 0 < n
  {
    RootEntries(n);
    WithDir(Chain(n), ROOT, "e", At(n + 1))
  }

  lemma {:induction false} RootEntries(n: nat)
    ensures ROOT in Chain(n).folders && ROOT in Chain(n).inodes
    ensures Chain(n).folders[ROOT].entries == if n == 0 then map[] else map["d" := At(1)]
  {
    if n > 0 {
      RootEntries(n - 1);
    }
  }

  lemma {:induction false} BesideUp(n: nat, k: nat)
    requires 0 < k <= n
    ensures At(k) in Beside(n).folders && Beside(n).folders[At(k)].up == At(k - 1)
  {
    hide Chain;
    ChainUp(n, k);
  }

  /** From depth `k` the root is exactly `k` steps away, and the directory beside the chain is not met. */
  lemma {:induction false} ChainClimbs(n: nat, k: nat, j: nat)
    requires 0 < n && k <= n
    ensures Climbs(Beside(n).folders, At(k), j) <==> k <= j
    ensures !Ancestor(Beside(n).folders, At(n + 1), At(k), j)
    decreases j
  {
    hide Chain, Beside;
    if k > 0 {
      BesideUp(n, k);
      if j > 0 {
        ChainClimbs(n, k - 1, j - 1);
      }
    }
  }

  lemma {:induction false} BesideShape(n: nat)
    requires 0 < n
    ensures Valid(Beside(n)) && HasEntry(Beside(n), ROOT, "e") && At(n) in Beside(n).folders
    ensures Beside(n).folders[ROOT].entries["e"] == At(n + 1) && At(n + 1) in Beside(n).folders
  {
    hide Chain, Valid;
    ChainValid(n);
    RootEntries(n);
    WithDirKeepsValid(Chain(n), ROOT, "e", At(n + 1));
  }

  lemma {:induction false} NotAbove(n: nat)
    requires 0 < n && HasEntry(Beside(n), ROOT, "e") && Beside(n).folders[ROOT].entries["e"] == At(n + 1)
    ensures !Cyclic(Beside(n), ROOT, "e", At(n))
  {
    hide Chain, Beside, Ancestor;
    if Cyclic(Beside(n), ROOT, "e", At(n)) {
      var j: nat :| Ancestor(Beside(n).folders, At(n + 1), At(n), j);
      ChainClimbs(n, n, j);
    }
  }

  /** A valid tree in which a directory beside the chain cannot be moved to its end, although that would
      not put it below itself. */
  lemma {:induction false} DeepChain(n: nat)
    requires n > 1023
    ensures Valid(Beside(n)) && HasEntry(Beside(n), ROOT, "e") && At(n) in Beside(n).folders
    ensures !Cyclic(Beside(n), ROOT, "e", At(n)) && RefusesMove(Beside(n), ROOT, "e", At(n))
  {
    hide Chain, Beside, Climbs, Valid, Cyclic, Ancestor;
    BesideShape(n);
    NotAbove(n);
    ChainClimbs(n, n, 1023);
  }

  /** The rename is refused as if it made a cycle. */
  method RenameTooDeep(n: nat, fs: Fs, faults: seq<bool>) returns (rc: int)
    requires n > 1023 && fs == Beside(n)
    ensures rc == EINVAL && !Cyclic(fs, ROOT, "e", At(n))
  {
    hide Chain, Beside, Climbs, Valid, Cyclic, Ancestor, RefusesMove;
    DeepChain(n);
    var t := new Tree.Of(fs, faults);
    rc := t.Rename(ROOT, "e", At(n), "f");
  }
}
