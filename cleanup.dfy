/**
 * The three cleanup steps: emptying the sounds folder while keeping it,
 * deleting the regular files directly inside the staging folder, and
 * deleting the staging folder with everything in it. Each catches its
 * errors, so a folder that is not there is left alone.
 */
module Cleanup {
  import opened Paths
  import opened FileSystem

  /** The regular files directly inside d. */
  function ChildFiles(t: Tree, d: Path): set<Path> {
    set p | p in t.files && ChildOf(p, d)
  }

  /** The directories directly inside d. */
  function ChildDirs(t: Tree, d: Path): set<Path> {
    set p | p in t.dirs && ChildOf(p, d)
  }

  /** The tree with every entry strictly inside d removed; d itself stays. */
  function Emptied(t: Tree, d: Path): Tree {
    Tree(map p | p in t.files && !Under(p, d) :: t.files[p], set p | p in t.dirs && !Under(p, d))
  }

  /** The tree with the regular files directly inside d removed. */
  function WithoutChildFiles(t: Tree, d: Path): Tree {
    Tree(t.files - ChildFiles(t, d), t.dirs)
  }

  /** The tree with everything inside the listed directories directly inside d (and those directories) removed. */
  function WithoutSubtrees(t: Tree, d: Path, done: set<Path>): Tree {
    Tree(map p | p in t.files && !(Under(p, d) && p[..|d| + 1] in done) :: t.files[p],
         set p | p in t.dirs && !(Under(p, d) && p[..|d| + 1] in done))
  }

  /** Removes the regular files directly inside the directory d, in any order. */
  method RemoveChildFiles(disk: Disk, d: Path)
    requires disk.Valid()
    modifies disk
    ensures disk.Valid() && disk.Snapshot() == WithoutChildFiles(old(disk.Snapshot()), d)
  {
    ghost var start := disk.Snapshot();
    ghost var all := ChildFiles(start, d);
    var pending := ChildFiles(disk.Snapshot(), d);
    while pending != {}
      invariant disk.Valid() && pending <= all
      invariant disk.Snapshot() == Tree(start.files - (all - pending), start.dirs)
      decreases pending
    {
      var p :| p in pending;
      disk.Remove(p);
      pending := pending - {p};
    }
  }

  /** delete_files_in_files_folder: listing a path that is not a directory raises, and nothing is deleted. */
  method DeleteFilesInFilesFolder(disk: Disk, folder: Path)
    requires disk.Valid()
    modifies disk
    ensures disk.Valid()
    ensures disk.Snapshot() == if folder in old(disk.dirs) then WithoutChildFiles(old(disk.Snapshot()), folder)
                               else old(disk.Snapshot())
  {
    if folder in disk.dirs {
      RemoveChildFiles(disk, folder);
    }
  }

  /**
   * delete_contents_in_sounds_folder: the files directly inside the folder are
   * removed, then each directory directly inside it with shutil.rmtree.
   */
  method DeleteContentsInSoundsFolder(disk: Disk, folder: Path)
    requires disk.Valid()
    modifies disk
    ensures disk.Valid()
    ensures disk.Snapshot() == if folder in old(disk.dirs) then Emptied(old(disk.Snapshot()), folder)
                               else old(disk.Snapshot())
  {
    if folder in disk.dirs {
      ghost var start := disk.Snapshot();
      RemoveChildFiles(disk, folder);
      ghost var filesGone := disk.Snapshot();
      ghost var all := ChildDirs(filesGone, folder);
      var pending := ChildDirs(disk.Snapshot(), folder);
      assert disk.Snapshot() == WithoutSubtrees(filesGone, folder, {});
      while pending != {}
        invariant disk.Valid() && pending <= all
        invariant disk.Snapshot() == WithoutSubtrees(filesGone, folder, all - pending)
        decreases pending
      {
        var sub :| sub in pending;
        ghost var done := all - pending;
        assert sub in disk.dirs by {
          assert sub[..|folder| + 1] == sub;
        }
        disk.RemoveTree(sub);
        SubtreeStep(filesGone, folder, done, sub);
        pending := pending - {sub};
        assert all - pending == done + {sub};
      }
      ChildrenGoneEmptied(start, folder);
    }
  }

  /** shutil.rmtree of a child directory removes exactly the entries whose top component under d is that child. */
  lemma SubtreeStep(t: Tree, d: Path, done: set<Path>, sub: Path)
    requires ChildOf(sub, d)
    ensures WithoutSubtrees(t, d, done).RemoveTree(sub) == WithoutSubtrees(t, d, done + {sub})
  {
    forall p
      ensures AtOrUnder(p, sub) <==> Under(p, d) && p[..|d| + 1] == sub
    {
      if AtOrUnder(p, sub) {
        assert p[..|d|] == sub[..|d|];
      }
    }
  }

  /**
   * In a well-formed tree, removing the files directly inside d and then the
   * subtrees of all directories directly inside d removes everything inside d.
   */
  lemma ChildrenGoneEmptied(t: Tree, d: Path)
    requires t.WellFormed()
    ensures var f := WithoutChildFiles(t, d);
      WithoutSubtrees(f, d, ChildDirs(f, d)) == Emptied(t, d)
  {
    var f := WithoutChildFiles(t, d);
    forall p | t.Exists(p) && Under(p, d) && !ChildOf(p, d)
      ensures p[..|d| + 1] in ChildDirs(f, d)
    {
      AncestorIsDir(t, p, |d| + 1);
      assert p[..|d| + 1][..|d|] == d;
    }
    forall p | p in t.dirs && ChildOf(p, d)
      ensures p[..|d| + 1] in ChildDirs(f, d)
    {
      assert p[..|d| + 1] == p;
    }
  }

  /** After emptying, d exists exactly when it did before and nothing is inside it; nothing outside d changes. */
  lemma EmptiedKeepsFolder(t: Tree, d: Path)
    ensures var e := Emptied(t, d);
      && (e.Exists(d) <==> t.Exists(d))
      && (forall p :: !(e.Exists(p) && Under(p, d)))
      && (forall p :: !Under(p, d) ==> (e.Exists(p) <==> t.Exists(p)) && (p in e.files ==> e.files[p] == t.files[p]))
  {
  }

  /** Emptying twice is emptying once: a second call finds nothing to delete. */
  lemma EmptiedIdempotent(t: Tree, d: Path)
    ensures Emptied(Emptied(t, d), d) == Emptied(t, d)
  {
  }

  /** Emptying keeps the tree well formed. */
  lemma EmptiedWellFormed(t: Tree, d: Path)
    requires t.WellFormed()
    ensures Emptied(t, d).WellFormed()
  {
    var e := Emptied(t, d);
    forall p | e.Exists(p) && |p| > 1
      ensures Parent(p) in e.dirs
    {
      assert Parent(p) in t.dirs;
    }
  }

  /**
   * A path that is not a directory has nothing inside it in a well-formed
   * tree, so the cleanup steps that skip it agree with the ones that run.
   */
  lemma AbsentFolderIsEmpty(t: Tree, d: Path)
    requires t.WellFormed() && |d| > 0 && d !in t.dirs
    ensures Emptied(t, d) == t && WithoutChildFiles(t, d) == t
  {
    forall p | t.Exists(p) && Under(p, d)
      ensures false
    {
      AncestorIsDir(t, p, |d|);
    }
  }

  /** delete_files_folder: shutil.rmtree on a path that is not a directory raises, and nothing is deleted. */
  method DeleteFilesFolder(disk: Disk, folder: Path)
    requires disk.Valid()
    modifies disk
    ensures disk.Valid()
    ensures disk.Snapshot() == if folder in old(disk.dirs) then old(disk.Snapshot()).RemoveTree(folder)
                               else old(disk.Snapshot())
  {
    if folder in disk.dirs {
      disk.RemoveTree(folder);
    }
  }
}
