/**
 * copy_minecraft_sounds: each sound record is resolved to the staged blob
 * named by its hash, which is copied to the record's path with the
 * "minecraft/sounds/" namespace replaced by the "sounds" folder. A record
 * whose blob is missing is skipped; the batch goes on.
 */
module Resolver {
  import opened Paths
  import opened FileSystem
  import opened Manifest

  /**
   * What happened to one record. The program logs a copy at INFO level and
   * the two caught failures at ERROR level; MakeDirsFailed stands for an
   * exception it does not catch.
   */
  datatype Outcome =
    | Copied          // the blob was copied to the target
    | SourceMissing   // no blob named by the hash in the staging folder
    | CopyFailed      // shutil.copyfile raised; caught, the batch goes on
    | MakeDirsFailed  // os.makedirs raised; not caught, the program stops

  /** The log and the tree after a batch of records. */
  datatype Resolution = Resolution(tree: Tree, log: seq<Outcome>)

  /** sound.path[len("minecraft/sounds/"):] with Python's slicing: empty when the path is shorter. */
  function Relative(path: string): (r: string)
    ensures |SoundsPrefix| <= |path| ==> path == path[..|SoundsPrefix|] + r
    ensures |path| < |SoundsPrefix| ==> r == ""
  {
    if |SoundsPrefix| <= |path| then path[|SoundsPrefix|..] else ""
  }

  /** os.path.join(base_folder, 'sounds'): the destination tree. */
  function SoundsFolder(base: Path): (r: Path)
    ensures ChildOf(r, base) && r[|base|] == "sounds"
  {
    base + ["sounds"]
  }

  /** os.path.join(base_folder, 'sounds', relative path): where a record's sound goes. */
  function TargetPath(base: Path, path: string): (r: Path)
    ensures |r| > |SoundsFolder(base)| && r[..|SoundsFolder(base)|] == SoundsFolder(base)
    ensures Unsplit(r[|SoundsFolder(base)|..]) == Relative(path)
  {
    var r := SoundsFolder(base) + Split(Relative(path));
    UnsplitSplit(Relative(path));
    assert r[|SoundsFolder(base)|..] == Split(Relative(path));
    r
  }

  /** os.path.join(files_folder, sound.hash): where a record's blob is staged. */
  function SourcePath(folder: Path, hash: string): (r: Path)
    ensures |r| > |folder| && r[..|folder|] == folder
    ensures Unsplit(r[|folder|..]) == hash
  {
    var r := folder + Split(hash);
    UnsplitSplit(hash);
    assert r[|folder|..] == Split(hash);
    r
  }

  /**
   * os.path.join ends the target with a separator when the relative path is
   * empty or ends in one; copyfile then opens a directory path and raises.
   */
  predicate EndsInSeparator(target: Path)
    requires |target| > 0
  {
    target[|target| - 1] == ""
  }

  /** One record: the new tree and the record's outcome. */
  function ResolveOne(t: Tree, base: Path, folder: Path, sound: MinecraftSound): Resolution {
    var source := SourcePath(folder, sound.hash);
    var target := TargetPath(base, sound.path);
    if !t.Exists(source) then Resolution(t, [SourceMissing])
    else if !CanMakeDirs(t, Parent(target)) then Resolution(t, [MakeDirsFailed])
    else
      var made := t.MakeDirs(Parent(target));
      if source !in made.files || target in made.dirs || source == target || EndsInSeparator(target) then Resolution(made, [CopyFailed])
      else Resolution(made.WriteFile(target, made.files[source]), [Copied])
  }

  /** The records in order; after MakeDirsFailed nothing more happens. */
  function ResolveAll(t: Tree, base: Path, folder: Path, sounds: seq<MinecraftSound>): Resolution
    decreases |sounds|
  {
    if sounds == [] then Resolution(t, [])
    else
      var prev := ResolveAll(t, base, folder, sounds[..|sounds| - 1]);
      if MakeDirsFailed in prev.log then prev
      else
        var step := ResolveOne(prev.tree, base, folder, sounds[|sounds| - 1]);
        Resolution(step.tree, prev.log + step.log)
  }

  /** The body of the loop of copy_minecraft_sounds for one record. */
  method CopySound(disk: Disk, sound: MinecraftSound, base: Path, folder: Path) returns (outcome: Outcome)
    requires disk.Valid()
    modifies disk
    ensures disk.Valid()
    ensures Resolution(disk.Snapshot(), [outcome]) == ResolveOne(old(disk.Snapshot()), base, folder, sound)
  {
    var target := TargetPath(base, sound.path);
    var source := SourcePath(folder, sound.hash);
    if !disk.Snapshot().Exists(source) {
      outcome := SourceMissing;
    } else if !CanMakeDirs(disk.Snapshot(), Parent(target)) {
      outcome := MakeDirsFailed;
    } else {
      disk.MakeDirs(Parent(target));
      assert Parent(target)[..|Parent(target)|] == Parent(target);
      if source !in disk.files || target in disk.dirs || source == target || EndsInSeparator(target) {
        outcome := CopyFailed;
      } else {
        disk.Write(target, disk.files[source]);
        outcome := Copied;
      }
    }
  }

  /** copy_minecraft_sounds; returns the outcome of each record it processed. */
  method CopyMinecraftSounds(disk: Disk, sounds: seq<MinecraftSound>, base: Path, folder: Path)
    returns (log: seq<Outcome>)
    requires disk.Valid()
    modifies disk
    ensures disk.Valid()
    ensures Resolution(disk.Snapshot(), log) == ResolveAll(old(disk.Snapshot()), base, folder, sounds)
  {
    ghost var start := disk.Snapshot();
    var total := |sounds|;
    log := [];
    var i := 0;
    while i < total
      invariant 0 <= i <= total && disk.Valid()
      invariant Resolution(disk.Snapshot(), log) == ResolveAll(start, base, folder, sounds[..i])
      invariant MakeDirsFailed !in log
    {
      assert sounds[..i + 1][..i] == sounds[..i];
      var outcome := CopySound(disk, sounds[i], base, folder);
      log := log + [outcome];
      if outcome == MakeDirsFailed {
        ResolveAllStops(start, base, folder, sounds, i + 1);
        return;
      }
      i := i + 1;
    }
    assert sounds[..i] == sounds;
  }

  /** Once a record stops the program, later records change nothing. */
  lemma {:induction false} ResolveAllStops(t: Tree, base: Path, folder: Path, sounds: seq<MinecraftSound>, n: nat)
    requires n <= |sounds| && MakeDirsFailed in ResolveAll(t, base, folder, sounds[..n]).log
    ensures ResolveAll(t, base, folder, sounds) == ResolveAll(t, base, folder, sounds[..n])
    decreases |sounds| - n
  {
    if n < |sounds| {
      var init := sounds[..|sounds| - 1];
      assert init[..n] == sounds[..n];
      ResolveAllStops(t, base, folder, init, n);
    } else {
      assert sounds[..n] == sounds;
    }
  }

  /**
   * Every record is visited exactly once: the log has one outcome per record,
   * unless os.makedirs stopped the program, and then that is the last outcome.
   */
  lemma {:induction false} ResolveAllLog(t: Tree, base: Path, folder: Path, sounds: seq<MinecraftSound>)
    ensures var log := ResolveAll(t, base, folder, sounds).log;
      && |log| <= |sounds|
      && (MakeDirsFailed !in log ==> |log| == |sounds|)
      && (MakeDirsFailed in log ==> log[|log| - 1] == MakeDirsFailed && MakeDirsFailed !in log[..|log| - 1])
    decreases |sounds|
  {
    if sounds != [] {
      var init := sounds[..|sounds| - 1];
      ResolveAllLog(t, base, folder, init);
      var prev := ResolveAll(t, base, folder, init);
      if MakeDirsFailed !in prev.log {
        var log := ResolveAll(t, base, folder, sounds).log;
        assert log[..|log| - 1] == prev.log;
      }
    }
  }

  /** A record whose blob is not staged leaves the tree as it was. */
  lemma MissingSourceSkipped(t: Tree, base: Path, folder: Path, sound: MinecraftSound)
    requires !t.Exists(SourcePath(folder, sound.hash))
    ensures ResolveOne(t, base, folder, sound) == Resolution(t, [SourceMissing])
  {
  }

  /** Every file a record writes lies inside the sounds folder. */
  lemma TargetInSoundsFolder(base: Path, path: string)
    ensures Under(TargetPath(base, path), SoundsFolder(base))
  {
    assert TargetPath(base, path)[..|SoundsFolder(base)|] == SoundsFolder(base);
  }

  /**
   * Stripping the namespace is injective on sound keys, so distinct records
   * have distinct targets and no copy overwrites another record's sound.
   */
  lemma TargetPathInjective(base: Path, a: string, b: string)
    requires IsSoundKey(a) && IsSoundKey(b)
    ensures TargetPath(base, a) == TargetPath(base, b) <==> a == b
  {
    if TargetPath(base, a) == TargetPath(base, b) {
      var n := |SoundsFolder(base)|;
      assert Split(Relative(a)) == TargetPath(base, a)[n..];
      assert Split(Relative(b)) == TargetPath(base, b)[n..];
      SplitInjective(Relative(a), Relative(b));
      assert a == a[..|SoundsPrefix|] + Relative(a);
      assert b == b[..|SoundsPrefix|] + Relative(b);
    }
  }

  /** Every file outside the folder d is in r exactly when it is in t, with the same bytes. */
  ghost predicate SameOutside(t: Tree, r: Tree, d: Path) {
    forall p :: !Under(p, d) ==> (p in r.files <==> p in t.files) && (p in t.files ==> r.files[p] == t.files[p])
  }

  /**
   * The resolver writes only inside the sounds folder: every file elsewhere,
   * the staging folder's included, is kept with its bytes, and no directory
   * is removed.
   */
  lemma {:induction false} ResolveAllKeepsOutside(t: Tree, base: Path, folder: Path, sounds: seq<MinecraftSound>)
    ensures var r := ResolveAll(t, base, folder, sounds).tree;
      t.dirs <= r.dirs && SameOutside(t, r, SoundsFolder(base))
    decreases |sounds|
  {
    if sounds != [] {
      var init := sounds[..|sounds| - 1];
      ResolveAllKeepsOutside(t, base, folder, init);
      TargetInSoundsFolder(base, sounds[|sounds| - 1].path);
    }
  }

  /** A staging folder apart from the sounds folder puts every blob path apart from it too. */
  lemma SourceOutsideSounds(base: Path, folder: Path, hash: string)
    requires Disjoint(folder, SoundsFolder(base))
    ensures Disjoint(SourcePath(folder, hash), SoundsFolder(base))
  {
  }

  /**
   * A record's outcome: SourceMissing exactly when no blob is at its hash,
   * MakeDirsFailed exactly when there is one but a prefix of the target's
   * directory is a regular file, and Copied exactly when the blob is a regular
   * file, the directory can be made, and the target is a distinct file name
   * that is not a directory.
   */
  lemma ResolveOneOutcome(t: Tree, base: Path, folder: Path, sound: MinecraftSound)
    ensures var r := ResolveOne(t, base, folder, sound);
      var source := SourcePath(folder, sound.hash);
      var target := TargetPath(base, sound.path);
      && (r.log == [SourceMissing] <==> !t.Exists(source))
      && (r.log == [MakeDirsFailed] <==> t.Exists(source) && !CanMakeDirs(t, Parent(target)))
      && (r.log == [Copied] <==>
            && source in t.files && CanMakeDirs(t, Parent(target))
            && target !in t.dirs && source != target && !EndsInSeparator(target))
  {
    var target := TargetPath(base, sound.path);
    assert target in t.MakeDirs(Parent(target)).dirs <==> target in t.dirs by {
      assert !AtOrUnder(Parent(target), target);
    }
  }

  /** One record neither creates nor removes anything at a path apart from the sounds folder. */
  lemma ResolveOneKeepsApart(t: Tree, base: Path, folder: Path, sound: MinecraftSound, p: Path)
    requires Disjoint(p, SoundsFolder(base))
    ensures ResolveOne(t, base, folder, sound).tree.Exists(p) <==> t.Exists(p)
  {
    DirectoriesMeetSounds(TargetPath(base, sound.path), SoundsFolder(base));
  }

  /** Every directory above a path inside the sounds folder lies inside it or above it. */
  lemma DirectoriesMeetSounds(target: Path, sounds: Path)
    requires |target| > |sounds| && target[..|sounds|] == sounds
    ensures forall p :: AtOrUnder(Parent(target), p) ==> !Disjoint(p, sounds)
  {
    forall p | AtOrUnder(Parent(target), p)
      ensures !Disjoint(p, sounds)
    {
      if |p| <= |sounds| {
        assert sounds[..|p|] == target[..|p|];
      } else {
        assert p[..|sounds|] == target[..|sounds|];
      }
    }
  }

  /** The whole batch neither creates nor removes anything at a path apart from the sounds folder. */
  lemma {:induction false} ResolveAllKeepsApart(t: Tree, base: Path, folder: Path, sounds: seq<MinecraftSound>, p: Path)
    requires Disjoint(p, SoundsFolder(base))
    ensures ResolveAll(t, base, folder, sounds).tree.Exists(p) <==> t.Exists(p)
    decreases |sounds|
  {
    if sounds != [] {
      var init := sounds[..|sounds| - 1];
      ResolveAllKeepsApart(t, base, folder, init, p);
      ResolveOneKeepsApart(ResolveAll(t, base, folder, init).tree, base, folder, sounds[|sounds| - 1], p);
    }
  }

  /** Each logged record is SourceMissing exactly when its blob is not in t. */
  ghost predicate MissingExact(t: Tree, log: seq<Outcome>, folder: Path, sounds: seq<MinecraftSound>) {
    forall k :: 0 <= k < |log| && k < |sounds| ==>
      (log[k] == SourceMissing <==> !t.Exists(SourcePath(folder, sounds[k].hash)))
  }

  /** The step of ResolveAllSourceMissing: appending the last record's outcome keeps MissingExact. */
  lemma MissingExactStep(t: Tree, prevLog: seq<Outcome>, stepLog: seq<Outcome>, folder: Path, sounds: seq<MinecraftSound>)
    requires |sounds| > 0 && |prevLog| == |sounds| - 1 && |stepLog| == 1
    requires MissingExact(t, prevLog, folder, sounds)
    requires stepLog[0] == SourceMissing <==> !t.Exists(SourcePath(folder, sounds[|sounds| - 1].hash))
    ensures MissingExact(t, prevLog + stepLog, folder, sounds)
  {
    var log := prevLog + stepLog;
    forall k | 0 <= k < |log| && k < |sounds|
      ensures log[k] == SourceMissing <==> !t.Exists(SourcePath(folder, sounds[k].hash))
    {
      if k < |prevLog| {
        assert log[k] == prevLog[k];
      }
    }
  }

  /**
   * With the staging folder apart from the sounds folder, a record is logged
   * SourceMissing exactly when its blob was not staged before the batch: one
   * missing blob never hides another record's blob.
   */
  lemma {:induction false} ResolveAllSourceMissing(t: Tree, base: Path, folder: Path, sounds: seq<MinecraftSound>)
    requires Disjoint(folder, SoundsFolder(base))
    ensures MissingExact(t, ResolveAll(t, base, folder, sounds).log, folder, sounds)
    decreases |sounds|
  {
    if sounds != [] {
      var n := |sounds| - 1;
      var init := sounds[..n];
      ResolveAllSourceMissing(t, base, folder, init);
      ResolveAllLog(t, base, folder, init);
      var prev := ResolveAll(t, base, folder, init);
      assert MissingExact(t, prev.log, folder, sounds) by {
        assert forall k :: 0 <= k < n ==> init[k] == sounds[k];
      }
      if MakeDirsFailed !in prev.log {
        var last := sounds[n];
        var source := SourcePath(folder, last.hash);
        SourceOutsideSounds(base, folder, last.hash);
        ResolveAllKeepsApart(t, base, folder, init, source);
        ResolveOneOutcome(prev.tree, base, folder, last);
        ResolveOneWrites(prev.tree, base, folder, last);
        MissingExactStep(t, prev.log, ResolveOne(prev.tree, base, folder, last).log, folder, sounds);
      }
    }
  }

  /**
   * The step r, taken on t, logs one outcome and changes no file but target;
   * when it is Copied, target holds the bytes source had in t.
   */
  ghost predicate WritesOnly(t: Tree, r: Resolution, target: Path, source: Path) {
    && |r.log| == 1
    && (r.log[0] == Copied ==> source in t.files && target in r.tree.files && r.tree.files[target] == t.files[source])
    && forall p :: p != target ==> (p in r.tree.files <==> p in t.files) && (p in t.files ==> r.tree.files[p] == t.files[p])
  }

  /**
   * One record changes at most its own target: when it is Copied, the target
   * holds the bytes of the staged blob; every other file is kept.
   */
  lemma ResolveOneWrites(t: Tree, base: Path, folder: Path, sound: MinecraftSound)
    ensures WritesOnly(t, ResolveOne(t, base, folder, sound), TargetPath(base, sound.path), SourcePath(folder, sound.hash))
  {
  }

  /** The record's target holds, in r, exactly the bytes its blob had in t. */
  ghost predicate HoldsBlob(t: Tree, r: Tree, base: Path, folder: Path, sound: MinecraftSound) {
    && SourcePath(folder, sound.hash) in t.files
    && TargetPath(base, sound.path) in r.files
    && r.files[TargetPath(base, sound.path)] == t.files[SourcePath(folder, sound.hash)]
  }

  /** Every record logged as Copied holds, in r, the blob it had in t. */
  ghost predicate CopiesHold(t: Tree, r: Resolution, base: Path, folder: Path, sounds: seq<MinecraftSound>) {
    forall k :: 0 <= k < |r.log| && k < |sounds| && r.log[k] == Copied ==> HoldsBlob(t, r.tree, base, folder, sounds[k])
  }

  /**
   * The step of ResolveAllCopiesBlobs: a last record that writes only its own
   * target keeps every earlier copy and, when Copied, holds its blob.
   */
  lemma CopiesHoldStep(t: Tree, prev: Resolution, step: Resolution, base: Path, folder: Path, sounds: seq<MinecraftSound>)
    requires |sounds| > 0 && |prev.log| == |sounds| - 1
    requires forall k :: 0 <= k < |sounds| ==> IsSoundKey(sounds[k].path)
    requires forall a, b :: 0 <= a < b < |sounds| ==> sounds[a].path != sounds[b].path
    requires Disjoint(folder, SoundsFolder(base))
    requires SameOutside(t, prev.tree, SoundsFolder(base))
    requires CopiesHold(t, prev, base, folder, sounds)
    requires var last := sounds[|sounds| - 1];
      WritesOnly(prev.tree, step, TargetPath(base, last.path), SourcePath(folder, last.hash))
    ensures CopiesHold(t, Resolution(step.tree, prev.log + step.log), base, folder, sounds)
  {
    var n := |sounds| - 1;
    var last := sounds[n];
    var log := prev.log + step.log;
    forall k | 0 <= k < |log| && k < |sounds| && log[k] == Copied
      ensures HoldsBlob(t, step.tree, base, folder, sounds[k])
    {
      if k < n {
        assert log[k] == prev.log[k];
        assert HoldsBlob(t, prev.tree, base, folder, sounds[k]);
        TargetPathInjective(base, sounds[k].path, last.path);
      } else {
        SourceOutsideSounds(base, folder, last.hash);
      }
    }
  }

  /**
   * For records in the sound namespace with distinct paths, and a staging
   * folder apart from the sounds folder, every record logged as Copied ends
   * with its target holding exactly the staged blob named by its hash.
   */
  lemma {:induction false} ResolveAllCopiesBlobs(t: Tree, base: Path, folder: Path, sounds: seq<MinecraftSound>)
    requires forall k :: 0 <= k < |sounds| ==> IsSoundKey(sounds[k].path)
    requires forall a, b :: 0 <= a < b < |sounds| ==> sounds[a].path != sounds[b].path
    requires Disjoint(folder, SoundsFolder(base))
    ensures |ResolveAll(t, base, folder, sounds).log| <= |sounds|
    ensures CopiesHold(t, ResolveAll(t, base, folder, sounds), base, folder, sounds)
    decreases |sounds|
  {
    ResolveAllLog(t, base, folder, sounds);
    if sounds != [] {
      var n := |sounds| - 1;
      var init := sounds[..n];
      ResolveAllCopiesBlobs(t, base, folder, init);
      ResolveAllLog(t, base, folder, init);
      var prev := ResolveAll(t, base, folder, init);
      assert CopiesHold(t, prev, base, folder, sounds) by {
        assert forall k :: 0 <= k < n ==> init[k] == sounds[k];
      }
      if MakeDirsFailed !in prev.log {
        ResolveAllKeepsOutside(t, base, folder, init);
        ResolveOneWrites(prev.tree, base, folder, sounds[n]);
        CopiesHoldStep(t, prev, ResolveOne(prev.tree, base, folder, sounds[n]), base, folder, sounds);
      }
    }
  }

  /**
   * The records parse_objects_json returns for a manifest are all sounds with
   * distinct paths, so each one that is Copied holds its staged blob at the end.
   */
  lemma ParsedSoundsCopyBlobs(es: seq<ObjectEntry>, t: Tree, base: Path, folder: Path)
    requires DistinctKeys(es) && Parsed(es).Success?
    requires Disjoint(folder, SoundsFolder(base))
    ensures var sounds := Parsed(es).value;
      var r := ResolveAll(t, base, folder, sounds);
      && |r.log| <= |sounds|
      && CopiesHold(t, r, base, folder, sounds)
  {
    ParsedAreSounds(es);
    ParsedPathsDistinct(es);
    ResolveAllCopiesBlobs(t, base, folder, Parsed(es).value);
  }
}
