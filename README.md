# Minecraft sound converter, modelled in Dafny

The program turns Minecraft's hashed asset store into a readable tree of sound
files. It reads the asset index `objects.json`, keeps the entries whose key is
in the `minecraft/sounds/` namespace, stages every blob of a nested source tree
(`org`) in one flat folder (`files`) under its base name, copies the blob named
by each sound's hash to `sounds/<key without the namespace>`, and cleans up:
it empties the `sounds` folder before a run and deletes the staging folder
after it.

The model keeps the program's steps and their order, with the filesystem
abstracted as a value:

- `Paths` (`paths.dfy`): a path is the list of its components. A path string
  becomes components through `Split` (split at every `/`). `Unsplit` joins
  them again, and the two are proved to be inverses.
- `FileSystem` (`file_system.dfy`): `Tree` holds the regular files
  (`map<Path, seq<int>>`) and the directories (`set<Path>`). `WellFormed`
  says that no path is both a file and a directory, and that the parent of
  every nested entry is a directory. The class `Disk` is the filesystem that
  changes in place. Its methods stand for the library calls the program makes:
  `os.remove`, `shutil.rmtree`, `os.makedirs` and writing a file with
  `shutil.copy` or `shutil.copyfile`. Each one keeps `WellFormed`.
- `Manifest` (`manifest.dfy`): `parse_objects_json` over the decoded
  document. `Parsed` is the reference definition, and the lemmas show that
  it keeps exactly the sound entries, in manifest order.
- `Staging` (`staging.dfy`): `copy_files_to_files_folder`, with the walk of
  the source tree given as a sequence. The lemmas show that a file is never
  overwritten, that the first walked file of a name wins, and that the count
  of copied files is bounded.
- `Resolver` (`resolver.dfy`): `copy_minecraft_sounds`. The method returns
  the outcome of each record: copied, blob missing, copy error caught, or
  `os.makedirs` raising. The program reports the first three through
  `logging` (a copy at INFO level, the two errors at ERROR level) and does
  not catch the last. The lemmas show the following. A record's outcome is
  fixed by its blob and its target, and a record is logged as missing
  exactly when its blob was not staged. A record's target is injective in
  its path. Nothing outside the `sounds` folder is written, so a staging
  folder that does not lie inside the `sounds` folder is never changed.
  Every record that is copied ends up holding its staged blob. Paths are
  compared as component lists, without resolving `.`, `..` or a leading
  `/`, and a hash ending in `/` is not given its directory meaning (see
  "Left out").
- `Cleanup` (`cleanup.dfy`): the three delete functions. Two of them list a
  folder, and the files or subfolders in that listing are removed in an
  arbitrary order.

In `copy_minecraft_sounds`, a missing blob is logged and a failing
`shutil.copyfile` is caught and logged (main.py:59-63), so the loop goes on
to the next record. `os.makedirs` at main.py:53 sits outside the `try`
block. If a component of a target's directory is a regular file, it raises,
and the whole program stops. The model records that failure as
`MakeDirsFailed`, and the batch ends there (`Resolver.ResolveAllLog`,
`Resolver.ResolveAllStops`).

## Model

| member | source | states |
|---|---|---|
| `Manifest.IsSoundKey` | main.py:38 | `key.startswith("minecraft/sounds/")`: the key is the namespace followed by some string |
| `Manifest.Entries` | main.py:37 | `data.get("objects", {})`: the entries of `objects`, or none when the key is absent |
| `Manifest.MinecraftSound` | main.py:65-68 | a record holds the manifest key as its path and the entry's hash |
| `Manifest.ParseObjectsJson` | main.py:31-42 | the loop returns exactly the reference parse of the `objects` entries; a document without `objects` gives the empty list |
| `Manifest.ParsedSucceedsIff` | main.py:37-40 | parsing succeeds if and only if every entry whose key starts with `minecraft/sounds/` has a `hash` field |
| `Manifest.ParsedFailsAtFirstMissingHash` | main.py:37-39 | a failed parse reports the first sound entry without a `hash` (the KeyError raised at `value["hash"]`) |
| `Manifest.ParsedFailureSticky` | main.py:39 | once an entry raises, the entries after it change nothing |
| `Manifest.ParsedExact` | main.py:37-40 | a record is in the result if and only if some entry with a sound key has its path as key and its hash as `hash`; no other entry appears |
| `Manifest.ParsedAreSounds` | main.py:38 | every returned record's path starts with `minecraft/sounds/` |
| `Manifest.ParsedPrefix` | main.py:37-40 | the records of any prefix of the entries are a prefix of the records: manifest order is kept |
| `Manifest.ParsedInOrder` | main.py:37-40 | the record of the sound entry at position n comes right after the records of the entries before n |
| `Manifest.ParsedPathsDistinct` | main.py:37-40 | distinct manifest keys give records with distinct paths |
| `Staging.CopyFilesToFilesFolder` | main.py:6-26 | the staging folder is created when missing; the new filesystem is the reference staging of the walk; `copied_files` is at most `total_files` and equals the number of files added |
| `Staging.Target` | main.py:16 | `os.path.join(files_folder, file)`: the entry directly inside the staging folder whose last component is the base name |
| `Staging.StageWalk` | main.py:13-23 | the walked files are copied in order into the existing staging folder: the new filesystem is the reference staging of the walk, and the count returned is at most the number walked and equals the number of files added |
| `Staging.MakeFolder` | main.py:7-8 | the staging folder is a directory afterwards; it is created with `os.makedirs` only when nothing is at its path |
| `Staging.StageFile` | main.py:15-23 | one walked file is copied to `folder/<base name>` exactly when nothing is there, and then the file count grows by one; otherwise nothing changes |
| `Staging.StagedNeverOverwrites` | main.py:16-21 | a file already present keeps its bytes and no directory changes: the target is skipped, never overwritten |
| `Staging.StagedFiles` | main.py:13-23 | after staging, a path is a file if and only if it was one before, or it is `folder/<base name>` of some walked file and not a directory |
| `Staging.StagedFirstWins` | main.py:14-21 | a base name that was free gets the bytes of the first walked file with that name |
| `Staging.StagedCount` | main.py:10-23 | each walked file adds at most one staged file, so the files copied never exceed the files walked |
| `Staging.StagedWellFormed` | main.py:7-21 | staging into an existing folder keeps the filesystem well formed |
| `Resolver.CopyMinecraftSounds` | main.py:44-63 | the loop leaves the filesystem and returns the log that the reference resolution of the records gives |
| `Resolver.CopySound` | main.py:49-63 | one record gives the reference outcome and filesystem: missing blob, `os.makedirs` raising, a caught copy error (the blob is a directory, the target is a directory or ends in a separator, or both are the same file), or the blob copied to the target |
| `Resolver.SoundsFolder` | main.py:49 | `os.path.join(base_folder, 'sounds')`: the `sounds` folder directly inside the base folder |
| `Resolver.EndsInSeparator` | main.py:56 | a target whose last component is empty ends in a separator, so `shutil.copyfile` opens a directory path and raises |
| `Resolver.Relative` | main.py:49 | `sound.path[len("minecraft/sounds/"):]`: the path with its first 17 characters removed, or empty when the path is shorter |
| `Resolver.TargetPath` | main.py:49 | `os.path.join(base_folder, 'sounds', relative)`: the path starts with the sounds folder and its remaining components join back to the relative path |
| `Resolver.SourcePath` | main.py:50 | `os.path.join(files_folder, sound.hash)`: the path starts with the staging folder and its remaining components join back to the hash |
| `Resolver.ResolveOneOutcome` | main.py:52-63 | a record is logged missing exactly when nothing is at its blob path; `os.makedirs` raises exactly when the blob exists and a prefix of the target's directory is a regular file; it is copied exactly when the blob is a regular file, the directory can be made, and the target is a file name, not a directory, and not the blob itself |
| `Resolver.ResolveOneKeepsApart` | main.py:52-61 | one record creates and removes nothing at a path that is neither inside the sounds folder nor one of its ancestors |
| `Resolver.ResolveAllKeepsApart` | main.py:48-63 | the whole batch creates and removes nothing at such a path |
| `Resolver.ResolveAllSourceMissing` | main.py:48-63 | with the staging folder apart from the sounds folder, each processed record is logged missing exactly when its blob was not staged before the batch |
| `Resolver.ResolveAllStops` | main.py:53 | after `os.makedirs` raises, no later record is processed |
| `Resolver.ResolveAllLog` | main.py:48-63 | every record is visited exactly once: one outcome per record, unless `os.makedirs` stopped the run, and then that outcome is the last |
| `Resolver.MissingSourceSkipped` | main.py:52-63 | a record whose hash is not staged is logged as missing and leaves the filesystem unchanged |
| `Resolver.TargetInSoundsFolder` | main.py:49 | every target lies inside `base_folder/sounds` |
| `Resolver.TargetPathInjective` | main.py:38-49 | for two sound keys, the targets are equal if and only if the keys are: stripping the prefix is injective |
| `Resolver.SourceOutsideSounds` | main.py:49-50 | when the staging folder and the sounds folder are apart, every blob path is apart from the sounds folder too: neither lies inside the other |
| `Resolver.ResolveOneWrites` | main.py:49-61 | one record changes at most its own target, which holds the staged blob's bytes when the record is copied |
| `Resolver.ResolveAllKeepsOutside` | main.py:48-61 | no file outside the sounds folder (the staging folder's included) is added, removed or changed, and no directory is removed |
| `Resolver.ResolveAllCopiesBlobs` | main.py:48-61 | for sound records with distinct paths, each record logged as copied ends with its target holding exactly the staged blob named by its hash |
| `Resolver.ParsedSoundsCopyBlobs` | main.py:37-56 | the records parsed from a manifest meet those conditions, so every copied sound holds its blob |
| `Paths.UnsplitSplit` | main.py:49-50 | splitting a path string into components and joining them again gives the string back |
| `Paths.SplitUnsplit` | main.py:49-50 | joining separator-free components and splitting again gives the components back |
| `Paths.SplitInjective` | main.py:49-50 | two path strings have the same components if and only if they are equal |
| `Cleanup.DeleteContentsInSoundsFolder` | main.py:70-84 | for a directory, the result is the reference emptying (everything strictly inside removed, the folder kept); any other path is left alone |
| `Cleanup.RemoveChildFiles` | main.py:72-76 | removing the listed regular files one by one, in any order, removes exactly the files directly inside the folder |
| `Cleanup.SubtreeStep` | main.py:78-80 | `shutil.rmtree` on a subfolder removes exactly the entries below that subfolder |
| `Cleanup.ChildrenGoneEmptied` | main.py:72-81 | in a well-formed tree, removing the direct files and then every direct subfolder removes everything inside the folder |
| `Cleanup.EmptiedKeepsFolder` | main.py:72-82 | after emptying, the folder exists if and only if it did before, nothing is inside it, and nothing outside it changes |
| `Cleanup.EmptiedIdempotent` | main.py:70-84 | emptying twice is the same as emptying once |
| `Cleanup.EmptiedWellFormed` | main.py:72-81 | emptying keeps the filesystem well formed |
| `Cleanup.AbsentFolderIsEmpty` | main.py:83-95 | a path that is not a directory has nothing inside it, so skipping it after the caught error is the same as emptying it |
| `Cleanup.DeleteFilesInFilesFolder` | main.py:86-95 | for a directory, exactly the regular files directly inside it are removed, and subfolders and their contents stay; any other path is left alone |
| `Cleanup.DeleteFilesFolder` | main.py:97-102 | for a directory, the folder and everything inside it are removed; any other path is left alone |
| `FileSystem.Tree.Exists` | main.py:52 | `os.path.exists` (also at lines 7 and 18): true exactly when a regular file or a directory is at the path |
| `FileSystem.CanMakeDirs` | main.py:53 | `os.makedirs` (also at line 8) raises exactly when the path or one of its ancestors is a regular file |
| `Paths.Parent` | main.py:53 | `os.path.dirname`: the path without its last component |
| `FileSystem.Tree.RemoveTree` | main.py:99 | `shutil.rmtree`: neither the folder nor anything inside it exists afterwards, and every other entry is kept with its bytes |
| `FileSystem.Disk.Remove` | main.py:75 | `os.remove` deletes one regular file and keeps the filesystem well formed |
| `FileSystem.Disk.RemoveTree` | main.py:80 | `shutil.rmtree` deletes a directory with everything inside it and keeps the filesystem well formed |
| `FileSystem.Disk.MakeDirs` | main.py:53 | `os.makedirs(..., exist_ok=True)` creates the directory and every directory above it |
| `FileSystem.Disk.Write` | main.py:56 | copying writes the bytes to a file in an existing directory and keeps the filesystem well formed |

## Left out

- JSON decoding (main.py:34-35) is left out. The model starts from the decoded document: the `objects` entries in iteration order, each with its optional `hash`. A document whose top level or `objects` value is not a mapping is not modelled. Neither is a sound entry whose value is not a mapping (TypeError at main.py:39, uncaught) nor one whose `hash` is not a string (TypeError in `os.path.join` at main.py:50, uncaught): the model's hash is always a string or absent.
- `Manifest.ParseObjectsJson`: Python's KeyError only names the field `hash`. The model's error also carries the entry's key.
- Logging, `configure_logging` and every `print` are left out, including the progress counters and `total_files`. The resolver returns its per-record outcomes instead. In the program, a copy is logged at INFO level, which is below the ERROR threshold set at main.py:29, so it never reaches `errors.log`. `MakeDirsFailed` stands for an uncaught exception, which is never logged.
- The `__main__` driver (main.py:104-123) is left out. This includes the fixed folder names and `base_folder` being taken from `__file__`.
- `os.walk` is an input sequence of (base name, bytes) pairs taken before copying; the directory a file is in matters only for reading its bytes. Its traversal order is whatever that sequence says. A staging folder inside the walked tree, which Python's lazy walk would revisit, is not modelled.
- Path strings become components by splitting at `/`. POSIX rules for a leading `/` (an absolute path) or a doubled `/` are not modelled: each of these gives an empty component. A trailing `/` also gives an empty last component. For a target, including the key `minecraft/sounds/` itself, this is modelled: `os.makedirs` gets the same directory, and then `shutil.copyfile` fails on the directory path, as in the program.
- A hash that is empty or ends in `/` is not modelled as the program treats it. The program's blob path is then the staging folder itself, or a directory path. `os.path.exists` is true when that directory exists, `os.makedirs` runs, and `shutil.copyfile` raises, which is caught and logged. The model's blob path ends in an empty component, which names nothing, so it logs the record as missing and changes nothing. `Resolver.CopySound`, `Resolver.ResolveOneOutcome` and `Resolver.ResolveAllSourceMissing` state the model's outcome, not the program's, for such a hash.
- `.` and `..` are ordinary component names in the model, so every path fact is lexical. `Resolver.TargetInSoundsFolder`, `Resolver.ResolveAllKeepsOutside` and `Resolver.ResolveAllKeepsApart` do not cover a key such as `minecraft/sounds/../x`, which the program writes outside the sounds folder, nor a key such as `minecraft/sounds//tmp/x`, whose relative part `/tmp/x` is absolute, so that `os.path.join` drops everything before it and the program writes `/tmp/x`. `Resolver.TargetPathInjective` does not cover `minecraft/sounds/./a` and `minecraft/sounds/a`, which the program sends to the same file.
- Symbolic links, permissions, a full disk and other I/O errors are not modelled. The copy failures the model does see are a source that is a directory, a target that is a directory or ends in a separator, and a source that is the target.
- `Staging.CopyFilesToFilesFolder` requires a non-empty staging folder path, no proper prefix of which is a regular file, and which is not itself a regular file. The model does not represent the crashes these exclude:
  - an empty path, or a missing folder with a regular file among its ancestors, makes `os.makedirs` raise at main.py:8, uncaught, whatever the walk holds;
  - when the folder itself is a regular file, `shutil.copy` into it raises at main.py:21, uncaught, for the first walked file. Only with an empty walk does the program then finish without error, and the requirement excludes that run too.
- The delete functions catch any exception and stop early. The model's only failure is a path that is not a directory, which leaves everything unchanged. Partial deletion after an I/O error is not modelled.
