/**
 * copy_files_to_files_folder: every file of a nested source tree is copied
 * into one flat folder under its base name alone. A name already present is
 * skipped, so among files with the same name the first one walked wins.
 */
module Staging {
  import opened Paths
  import opened FileSystem

  /**
   * One regular file reported by os.walk: its base name and the bytes of the
   * file at os.path.join(root, name), which is all the copy reads of it.
   */
  datatype WalkEntry = WalkEntry(name: string, content: Blob)

  /** os.path.join(files_folder, file): the staging path of a base name. */
  function Target(folder: Path, name: string): (p: Path)
    ensures ChildOf(p, folder) && p[|folder|] == name
  {
    folder + [name]
  }

  /** The tree once the staging folder exists (os.makedirs when it is missing). */
  function WithFolder(t: Tree, folder: Path): Tree {
    if t.Exists(folder) then t else t.MakeDirs(folder)
  }

  /** The tree after copying the walked files, in order, into the folder; each copy that finds its target taken is skipped. */
  function Staged(t: Tree, folder: Path, walk: seq<WalkEntry>): Tree
    decreases |walk|
  {
    if walk == [] then t
    else
      StageOne(Staged(t, folder, walk[..|walk| - 1]), folder, walk[|walk| - 1])
  }

  /** The tree after copying one walked file into the folder, unless its target is taken. */
  function StageOne(t: Tree, folder: Path, entry: WalkEntry): Tree {
    var target := Target(folder, entry.name);
    if t.Exists(target) then t else t.WriteFile(target, entry.content)
  }

  /** Lines 7-8: the staging folder is created when nothing is at its path. */
  method MakeFolder(disk: Disk, folder: Path)
    requires disk.Valid() && |folder| > 0 && CanMakeDirs(disk.Snapshot(), folder)
    modifies disk
    ensures disk.Valid() && folder in disk.dirs
    ensures disk.Snapshot() == WithFolder(old(disk.Snapshot()), folder)
  {
    assert folder[..|folder|] == folder;
    if !disk.Snapshot().Exists(folder) {
      disk.MakeDirs(folder);
    }
  }

  /** Lines 15-23 for one walked file: copy it unless its target is taken; says whether it copied. */
  method StageFile(disk: Disk, folder: Path, entry: WalkEntry) returns (copied: bool)
    requires disk.Valid() && folder in disk.dirs
    modifies disk
    ensures disk.Valid() && folder in disk.dirs
    ensures copied <==> !old(disk.Snapshot()).Exists(Target(folder, entry.name))
    ensures disk.Snapshot() == StageOne(old(disk.Snapshot()), folder, entry)
    ensures |disk.files| == |old(disk.files)| + if copied then 1 else 0
  {
    var target := Target(folder, entry.name);
    copied := !disk.Snapshot().Exists(target);
    if copied {
      disk.Write(target, entry.content);
    }
  }

  /**
   * copy_files_to_files_folder, with the walk of the source tree given as a
   * sequence; returns copied_files.
   */
  method CopyFilesToFilesFolder(disk: Disk, walk: seq<WalkEntry>, folder: Path) returns (copied: nat)
    requires disk.Valid() && |folder| > 0 && CanMakeDirs(disk.Snapshot(), folder)
    modifies disk
    ensures disk.Valid()
    ensures disk.Snapshot() == Staged(WithFolder(old(disk.Snapshot()), folder), folder, walk)
    ensures copied <= |walk|
    ensures |disk.files| == |old(disk.files)| + copied
  {
    MakeFolder(disk, folder);
    copied := StageWalk(disk, walk, folder);
  }

  /** Lines 13-23: the walked files are copied in order into the existing folder; returns how many were copied. */
  method StageWalk(disk: Disk, walk: seq<WalkEntry>, folder: Path) returns (copied: nat)
    requires disk.Valid() && folder in disk.dirs
    modifies disk
    ensures disk.Valid()
    ensures disk.Snapshot() == Staged(old(disk.Snapshot()), folder, walk)
    ensures copied <= |walk|
    ensures |disk.files| == |old(disk.files)| + copied
  {
    ghost var start := disk.Snapshot();
    var total := |walk|;
    copied := 0;
    var i := 0;
    while i < total
      invariant 0 <= i <= total
      invariant disk.Valid() && folder in disk.dirs
      invariant disk.Snapshot() == Staged(start, folder, walk[..i])
      invariant copied <= i && |disk.files| == |start.files| + copied
    {
      StagedStep(start, folder, walk, i);
      var added := StageFile(disk, folder, walk[i]);
      if added {
        copied := copied + 1;
      }
      i := i + 1;
    }
    assert walk[..i] == walk;
  }

  /** Staging one more walked file: it is copied unless its target is taken. */
  lemma StagedStep(t: Tree, folder: Path, walk: seq<WalkEntry>, i: nat)
    requires i < |walk|
    ensures Staged(t, folder, walk[..i + 1]) == StageOne(Staged(t, folder, walk[..i]), folder, walk[i])
  {
    assert walk[..i + 1][..i] == walk[..i];
  }

  /** Staging never removes or overwrites a file, nor touches a directory. */
  lemma {:induction false} StagedNeverOverwrites(t: Tree, folder: Path, walk: seq<WalkEntry>)
    ensures Staged(t, folder, walk).dirs == t.dirs
    ensures forall p :: p in t.files ==> p in Staged(t, folder, walk).files && Staged(t, folder, walk).files[p] == t.files[p]
    decreases |walk|
  {
    if walk != [] {
      StagedNeverOverwrites(t, folder, walk[..|walk| - 1]);
    }
  }

  /** The staged files are the files there before plus one per walked name whose target was not a directory. */
  lemma {:induction false} StagedFiles(t: Tree, folder: Path, walk: seq<WalkEntry>)
    ensures forall p :: p in Staged(t, folder, walk).files <==>
              p in t.files || (p !in t.dirs && exists i :: 0 <= i < |walk| && p == Target(folder, walk[i].name))
    decreases |walk|
  {
    if walk != [] {
      var init := walk[..|walk| - 1];
      StagedFiles(t, folder, init);
      StagedNeverOverwrites(t, folder, init);
      assert forall i :: 0 <= i < |init| ==> init[i] == walk[i];
    }
  }

  /**
   * First wins: a base name that was not taken in the folder ends up with the
   * bytes of the first walked file of that name.
   */
  lemma {:induction false} StagedFirstWins(t: Tree, folder: Path, walk: seq<WalkEntry>, i: nat)
    requires i < |walk| && !t.Exists(Target(folder, walk[i].name))
    requires forall j :: 0 <= j < i ==> walk[j].name != walk[i].name
    ensures Target(folder, walk[i].name) in Staged(t, folder, walk).files
    ensures Staged(t, folder, walk).files[Target(folder, walk[i].name)] == walk[i].content
    decreases |walk|
  {
    var init := walk[..|walk| - 1];
    var target := Target(folder, walk[i].name);
    StagedNeverOverwrites(t, folder, init);
    if i == |walk| - 1 {
      StagedFiles(t, folder, init);
      forall j | 0 <= j < |init|
        ensures Target(folder, init[j].name) != target
      {
        assert init[j] == walk[j];
        assert Target(folder, init[j].name)[|folder|] == init[j].name;
      }
      assert target !in Staged(t, folder, init).files;
    } else {
      assert init[i] == walk[i];
      StagedFirstWins(t, folder, init, i);
    }
  }

  /** Staging keeps the tree well formed once the folder is a directory. */
  lemma {:induction false} StagedWellFormed(t: Tree, folder: Path, walk: seq<WalkEntry>)
    requires t.WellFormed() && folder in t.dirs
    ensures Staged(t, folder, walk).WellFormed()
    decreases |walk|
  {
    if walk != [] {
      var init := walk[..|walk| - 1];
      StagedWellFormed(t, folder, init);
      StagedNeverOverwrites(t, folder, init);
      var prev := Staged(t, folder, init);
      var target := Target(folder, walk[|walk| - 1].name);
      if !prev.Exists(target) {
        assert Parent(target) == folder;
        WriteFileWellFormed(prev, target, walk[|walk| - 1].content);
      }
    }
  }

  /** Each walked file adds at most one file, so copied_files never exceeds total_files. */
  lemma {:induction false} StagedCount(t: Tree, folder: Path, walk: seq<WalkEntry>)
    ensures |t.files| <= |Staged(t, folder, walk).files| <= |t.files| + |walk|
    decreases |walk|
  {
    if walk != [] {
      StagedCount(t, folder, walk[..|walk| - 1]);
    }
  }
}
