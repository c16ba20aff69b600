/**
 * The filesystem the program works on: regular files with their bytes and
 * directories, addressed by Path. Tree is its value at one moment; Disk is the
 * mutable filesystem, whose methods are the library calls the program makes
 * (os.remove, shutil.rmtree, os.makedirs, shutil.copy and shutil.copyfile).
 */
module FileSystem {
  import opened Paths

  type Blob = seq<int>

  datatype Tree = Tree(files: map<Path, Blob>, dirs: set<Path>) {

    /** os.path.exists: a regular file or a directory is at p. */
    predicate Exists(p: Path): (b: bool)
      ensures b <==> p in files || p in dirs
    {
      p in files || p in dirs
    }

    /**
     * A path names a file or a directory, not both; no entry has the empty
     * path; the directory holding any nested entry exists.
     */
    ghost predicate WellFormed() {
      && files.Keys !! dirs
      && [] !in files && [] !in dirs
      && (forall p :: p in files && |p| > 1 ==> Parent(p) in dirs)
      && (forall p :: p in dirs && |p| > 1 ==> Parent(p) in dirs)
    }

    /** The tree after os.remove(p). */
    function RemoveFile(p: Path): (t: Tree)
      ensures t.dirs == dirs && t.files.Keys == files.Keys - {p}
      ensures forall q :: q in t.files ==> t.files[q] == files[q]
    {
      Tree(files - {p}, dirs)
    }

    /** The tree after shutil.rmtree(d): d and everything inside it are gone. */
    function RemoveTree(d: Path): (t: Tree)
      ensures forall p :: t.Exists(p) <==> Exists(p) && !AtOrUnder(p, d)
      ensures forall p :: p in t.files ==> p in files && t.files[p] == files[p]
      ensures forall p :: p in t.dirs <==> p in dirs && !AtOrUnder(p, d)
    {
      Tree(map p | p in files && !AtOrUnder(p, d) :: files[p],
           set p | p in dirs && !AtOrUnder(p, d))
    }

    /** The tree after os.makedirs(d, exist_ok=True): d and every directory above it exist. */
    function MakeDirs(d: Path): (t: Tree)
      ensures t.files == files
      ensures forall k :: 0 < k <= |d| ==> d[..k] in t.dirs
      ensures forall p :: p in t.dirs <==> p in dirs || (|p| > 0 && AtOrUnder(d, p))
    {
      var added := set k | 0 < k <= |d| :: d[..k];
      assert forall p :: |p| > 0 && AtOrUnder(d, p) ==> p == d[..|p|] && p in added;
      Tree(files, dirs + added)
    }

    /** The tree after writing the bytes b to the regular file p. */
    function WriteFile(p: Path, b: Blob): (t: Tree)
      ensures t.dirs == dirs && t.files.Keys == files.Keys + {p}
      ensures t.files[p] == b
      ensures forall q :: q in files && q != p ==> t.files[q] == files[q]
    {
      Tree(files[p := b], dirs)
    }
  }

  /** os.makedirs raises unless no prefix of d names a regular file. */
  predicate CanMakeDirs(t: Tree, d: Path) {
    forall k :: 0 < k <= |d| ==> d[..k] !in t.files
  }

  /** In a well-formed tree every directory above an entry exists. */
  lemma {:induction false} AncestorIsDir(t: Tree, p: Path, k: nat)
    requires t.WellFormed() && t.Exists(p)
    requires 0 < k < |p|
    ensures p[..k] in t.dirs
  {
    var q := Parent(p);
    if k < |q| {
      AncestorIsDir(t, q, k);
      assert q[..k] == p[..k];
    }
  }

  lemma RemoveFileWellFormed(t: Tree, p: Path)
    requires t.WellFormed()
    ensures t.RemoveFile(p).WellFormed()
  {
  }

  lemma RemoveTreeWellFormed(t: Tree, d: Path)
    requires t.WellFormed()
    ensures t.RemoveTree(d).WellFormed()
  {
    var r := t.RemoveTree(d);
    forall p | r.Exists(p) && |p| > 1
      ensures Parent(p) in r.dirs
    {
      assert Parent(p) in t.dirs;
    }
  }

  lemma MakeDirsWellFormed(t: Tree, d: Path)
    requires t.WellFormed() && CanMakeDirs(t, d)
    ensures t.MakeDirs(d).WellFormed()
  {
    var r := t.MakeDirs(d);
    forall p | p in r.dirs && |p| > 1
      ensures Parent(p) in r.dirs
    {
      if p !in t.dirs {
        assert p == d[..|p|];
        assert Parent(p) == d[..|p| - 1];
      }
    }
    forall p | p in r.dirs
      ensures p !in r.files
    {
      if p !in t.dirs {
        assert p == d[..|p|];
      }
    }
  }

  lemma WriteFileWellFormed(t: Tree, p: Path, b: Blob)
    requires t.WellFormed()
    requires |p| > 0 && p !in t.dirs && (|p| > 1 ==> Parent(p) in t.dirs)
    ensures t.WriteFile(p, b).WellFormed()
  {
  }

  /** The filesystem, changed in place by the library calls below. */
  class Disk {
    var files: map<Path, Blob>
    var dirs: set<Path>

    function Snapshot(): Tree
      reads this
    {
      Tree(files, dirs)
    }

    ghost predicate Valid()
      reads this
    {
      Snapshot().WellFormed()
    }

    constructor (t: Tree)
      requires t.WellFormed()
      ensures Valid() && Snapshot() == t
    {
      files := t.files;
      dirs := t.dirs;
    }

    /** os.remove(p) on a regular file. */
    method Remove(p: Path)
      requires Valid() && p in files
      modifies this
      ensures Valid() && Snapshot() == old(Snapshot()).RemoveFile(p)
    {
      RemoveFileWellFormed(Snapshot(), p);
      files := files - {p};
    }

    /** shutil.rmtree(d) on a directory. */
    method RemoveTree(d: Path)
      requires Valid() && d in dirs
      modifies this
      ensures Valid() && Snapshot() == old(Snapshot()).RemoveTree(d)
    {
      RemoveTreeWellFormed(Snapshot(), d);
      var t := Snapshot().RemoveTree(d);
      files, dirs := t.files, t.dirs;
    }

    /** os.makedirs(d, exist_ok=True) when no prefix of d is a regular file. */
    method MakeDirs(d: Path)
      requires Valid() && CanMakeDirs(Snapshot(), d)
      modifies this
      ensures Valid() && Snapshot() == old(Snapshot()).MakeDirs(d)
    {
      MakeDirsWellFormed(Snapshot(), d);
      dirs := Snapshot().MakeDirs(d).dirs;
    }

    /** Writes the bytes b to the regular file p in an existing directory (shutil.copy, shutil.copyfile). */
    method Write(p: Path, b: Blob)
      requires Valid()
      requires |p| > 0 && p !in dirs && (|p| > 1 ==> Parent(p) in dirs)
      modifies this
      ensures Valid() && Snapshot() == old(Snapshot()).WriteFile(p, b)
    {
      WriteFileWellFormed(Snapshot(), p, b);
      files := files[p := b];
    }
  }
}
