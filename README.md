# calibre_backup in Dafny

A model of `calibre_backup.py`, a script that backs up a calibre e-book library.
It checks its arguments and looks up the `calibre-debug` exporter. It then checks that
the library folder holds `metadata.db`, and prepares the backup folder: it creates the
folder, accepts it, refuses it, or deletes its visible top-level entries. Next it
runs the exporter. Last, it writes `CalibreBackup.sha1`, a manifest with one line
`<sha1 hex> <path>\n` for each path of a sorted recursive listing of the backup folder
other than the top-level `CalibreBackup.sha1`. Writing stops at the first directory in
that listing.

The model stands in for the filesystem with snapshots. A folder is a
`map<Path, Entry>` from a posix-style relative path to `File(bytes)` or `Dir`
(`Folders`). The script's globals become an immutable `Config` record. The world
outside the script becomes a `World` value (`Backup`). It holds:

- the text `which calibre-debug` printed, stdout and stderr together, and whether that text names a program that can be started;
- the library folder;
- the backup folder and whether it exists;
- the order of the `glob('*')` listing;
- what the exporter leaves behind;
- SHA-1, as an arbitrary function from bytes to a hex string.

Modules, one per part of the script:

- `Paths`: path strings, Python's string order, and `sorted` as the unique increasing
  enumeration of a set.
- `Folders`: folder snapshots, plus the `os.listdir`, `glob('*')` and recursive
  `glob('**')` views of them. As in Python's glob, names starting with `.` are skipped.
- `Countdown`: the numbers `delay_time` prints.
- `Preflight`: `library_check`, and `prep_backup_location` as a function `Prep`. It
  also holds the `BackupFolder` class, whose `PrepBackupLocation` method changes the
  folder in place with the deletion loop, and is proved equal to `Prep`.
- `Manifest`: the 4096-byte read loop over a `Reader` and a `Sha1` object, the write
  loop into a `TextFile`, and `ManifestOf`, the function the builder is proved against.
- `ManifestProperties`: what the manifest contains, stated over the folder.
- `Backup`: the `__main__` sequence as a function `Run`, its properties, and
  `RunBackup`, which runs the imperative steps and is proved equal to `Run`.

### Where the code does something a reader may not expect (the model follows the code)

- The `-c/--clean` help text reads "clean (remove calibre files from backup location)". In the code, the deletion
  branch runs when `--clean` was *not* given (calibre_backup.py:49). With `--clean`,
  a non-empty folder ends with status 2, whether or not `metadata.db` is there
  (calibre_backup.py:58-60). The `metadata.db` refusal (status 8) is only reached
  without `--clean`.
- The exit statuses are not all distinct. A missing argument, a missing exporter and
  `--clean` on a non-empty folder all end with 2.
- A manifest of checksums suggests one line per file. The code has no regular-file
  check, and `open(path, "rb")` raises on a directory. Every directory appears in the
  recursive listing before its contents, so the manifest stops at the first
  visible directory. Only the lines written before it are kept
  (`NestedFolderExample`, `CompletedMeansFlat`).
- The clean-up calls `os.remove` on every visible top-level name. It raises on the
  first directory in listing order. The files listed before it stay removed, and
  nothing else is (`PrepCrashesOnDirectory`, `RemoveStopsAtFirstDir`). Hidden names and nested entries are never touched.

## Model

| member | source | states |
|---|---|---|
| `Paths.Visible` | calibre_backup.py:54 | a path is listed by glob exactly when it is non-empty and no component begins with '.' |
| `Paths.Less` | calibre_backup.py:64 | Python's `<` on str, computed character by character, holds exactly when the strings agree up to some position where the first has ended and the second goes on, or the first has the smaller code point |
| `Paths.SortPaths` | calibre_backup.py:64 | `sorted` of a listing returns its paths once each, in strictly increasing code-point order |
| `Paths.SortedListingUnique` | calibre_backup.py:64 | two sorted listings of the same set are equal, so the sorted listing is determined by the folder |
| `Folders.ListDir` | calibre_backup.py:45 | `os.listdir` lists only names directly inside the folder; it includes every `*` match, and the names it has beyond them all begin with '.' |
| `Folders.GlobStar` | calibre_backup.py:54 | the `*` glob lists top-level names not beginning with '.', all of which the recursive glob lists too |
| `Folders.GlobRecursive` | calibre_backup.py:64 | the recursive glob lists only entries of the folder, and in a real folder the folder holding a listed path is listed as well |
| `Folders.EmptyListDir` | calibre_backup.py:45-46 | for a real folder, `os.listdir` is empty exactly when the folder holds nothing |
| `Countdown.Ticks` | calibre_backup.py:32-33 | the ticks are numSec, numSec-1, ..., 1 (max(numSec, 0) of them), and none for numSec <= 0 |
| `Countdown.DelayTime` | calibre_backup.py:30-35 | the loop prints exactly `Ticks(numSec)` |
| `Preflight.LibraryCheck` | calibre_backup.py:37-40 | the check fails, with status 4, exactly when `metadata.db` is absent at the library root |
| `Preflight.RemoveEach` | calibre_backup.py:54-56 | the removal loop only removes listed files and leaves every remaining entry unchanged |
| `Preflight.RemoveAllFiles` | calibre_backup.py:54-57 | over distinct listed files, the loop completes and removes exactly the listed names |
| `Preflight.RemoveFailsOnDir` | calibre_backup.py:55-56 | over distinct present names, the loop raises exactly when one of them is a directory |
| `Preflight.RemoveStopsAtFirstDir` | calibre_backup.py:55-56 | when the loop raises, it raised at the first directory in the list; the names before it are files and are exactly the names removed |
| `Preflight.Prep` | calibre_backup.py:42-60 | preparation only removes entries and never ends with status 4 |
| `Preflight.PrepEmptyFolder` | calibre_backup.py:43-47 | a real folder with an empty listing (a fresh one included) is empty, proceeds, and loses nothing |
| `Preflight.PrepLooksLikeLibrary` | calibre_backup.py:49-52 | non-empty, no `--clean`, `metadata.db` present: status 8 and nothing deleted |
| `Preflight.PrepCleanRefused` | calibre_backup.py:58-60 | non-empty with `--clean`: status 2 and nothing deleted, marker or not |
| `Preflight.PrepDeletesVisibleTopLevel` | calibre_backup.py:53-57 | non-empty, no `--clean`, no marker, visible top-level names all files: proceeds; exactly the visible top-level names are gone; hidden and nested entries are unchanged |
| `Preflight.PrepCrashesOnDirectory` | calibre_backup.py:53-56 | same branch: it raises exactly when a visible top-level name is a directory; only visible top-level files can have been removed; on a crash the folder is the old one minus the names listed before the first directory |
| `Preflight.PrepKeepsValid` | calibre_backup.py:54-56 | every branch leaves a well-formed folder (no entry loses its parent directory) |
| `Preflight.BackupFolder.PrepBackupLocation` | calibre_backup.py:42-60 | the folder exists afterwards; the verdict and new contents are `Prep` of the old contents; the countdown is printed exactly on the deletion branch |
| `Preflight.BackupFolder.RemoveListed` | calibre_backup.py:54-56 | the in-place removal loop leaves the folder as `RemoveEach` says and reports whether it raised |
| `Preflight.BackupFolder.Export` | calibre_backup.py:74-76 | the exporter leaves the folder holding an arbitrary given content |
| `Manifest.Reader.Read` | calibre_backup.py:70 | `read(n)` returns the next min(n, remaining) bytes and advances; empty only at the end |
| `Manifest.Sha1.Update` | calibre_backup.py:71 | the hash state is extended by the block |
| `Manifest.HashFile` | calibre_backup.py:68-71 | the blocks fed to the hash concatenate to the file's bytes; each holds 1 to 4096 bytes; all but the last hold exactly 4096; the digest is that of the whole file |
| `Manifest.FormatLine` | calibre_backup.py:72 | a manifest line splits back into the digest, one space, the path and a final newline |
| `Manifest.LinesFor` | calibre_backup.py:66-72 | the write loop writes at most one line per listed path, and completes exactly when every listed path other than `CalibreBackup.sha1` is a present file |
| `Manifest.ManifestOf` | calibre_backup.py:62-72 | the manifest completes exactly when `CalibreBackup.sha1` is not a directory and every other visible path is a file |
| `Manifest.TextFile.Write` | calibre_backup.py:72 | a write appends one line to the manifest file |
| `Manifest.BuildManifest` | calibre_backup.py:62-72 | the lines written, and whether the builder raised, are `ManifestOf` the folder |
| `ManifestProperties.WithoutListing` | calibre_backup.py:64-67 | dropping one name from a sorted listing gives the sorted listing of the set without it |
| `ManifestProperties.LinesForWithout` | calibre_backup.py:66-67 | skipping the exact manifest name is the same as leaving it out of the listing |
| `ManifestProperties.ManifestOverPaths` | calibre_backup.py:64-67 | the manifest is the write loop over the sorted visible paths other than `CalibreBackup.sha1`, unless that name is a directory |
| `ManifestProperties.LinesForShape` | calibre_backup.py:66-72 | line k is `<digest> <path k>\n` for file k; it completes iff there is a line per path, and otherwise stops at a directory |
| `ManifestProperties.ManifestLines` | calibre_backup.py:64-72 | one line per visible path except the top-level `CalibreBackup.sha1` (a nested one is listed), in sorted order, each `hex + " " + path + "\n"`; completes iff none of those paths is a directory; otherwise cut short right before the first directory |
| `ManifestProperties.ManifestStable` | calibre_backup.py:64-67 | storing any bytes as `CalibreBackup.sha1` does not change the next manifest, so running the builder twice gives the same lines |
| `ManifestProperties.LinesForAgree` | calibre_backup.py:66-72 | the lines depend only on the listed paths' entries, not on the manifest's own entry |
| `ManifestProperties.CompletedMeansFlat` | calibre_backup.py:64-69 | in a real folder, a complete manifest means every visible entry is a top-level file |
| `ManifestProperties.FlatFolderExample` | calibre_backup.py:64-72 | files `b.txt`, `a.txt`, a hidden file and a stale manifest give exactly the lines for `a.txt` then `b.txt` |
| `ManifestProperties.NestedFolderExample` | calibre_backup.py:64-69 | `a.txt` plus `sub/b.txt` gives only the `a.txt` line before opening `sub` raises |
| `Backup.Run` | calibre_backup.py:91-99 | the backup folder exists afterwards exactly when it existed before or the three checks passed; every ending other than an exit passed those checks |
| `Backup.ArgumentGate` | calibre_backup.py:91-93 | a missing or empty `--backup`/`--library` ends with 2, the folder unchanged, whatever the tool, library or listing order |
| `Backup.ToolGate` | calibre_backup.py:21-28 | when `which calibre-debug` printed nothing (stdout or stderr), status 2, before the library or folder is examined |
| `Backup.ExportCrashesAfterCleanUp` | calibre_backup.py:97-98 | when `which` printed text that is not a program, the gate lets the run through and the clean-up runs; starting the exporter then raises, leaving the folder as the clean-up left it and writing no manifest |
| `Backup.LibraryGate` | calibre_backup.py:96 | the run ends with 4 iff the earlier gates pass and the library lacks `metadata.db`; the folder is unchanged |
| `Backup.RefusesLibraryAsBackup` | calibre_backup.py:96-97 | the run ends with 8 iff the gates pass, the folder lists something, no `--clean`, and it holds `metadata.db`; nothing is deleted |
| `Backup.CleanFlagRefusesNonEmpty` | calibre_backup.py:97 | past the gates, `--clean` on a non-empty folder ends with 2 and changes nothing |
| `Backup.ExitStatuses` | calibre_backup.py:91-99 | every `sys.exit` status the run reaches is 2, 4 or 8 (a crash or a completed run ends the process otherwise) |
| `Backup.WhatChangesTheFolder` | calibre_backup.py:95-99 | exits leave the folder as it was; a failed clean-up or a failed exporter launch only removes entries; the manifest is built over the exporter's output |
| `Backup.FinishedManifest` | calibre_backup.py:97-99 | a complete run writes one line per visible exported path except the manifest, in sorted order, each with that file's digest |
| `Backup.RunBackup` | calibre_backup.py:91-99 | running the imperative steps in sequence ends with `Run`'s outcome and folder |

## Left out

- `setup_paths` (platform detection, `PATH` change, running `which`): only its result is kept, as `World.whichOutput` and `World.toolRuns`. The gate at calibre_backup.py:22 tests only that the output is non-empty. Where `which` reports a miss on stderr, or is itself missing, the text is an error message. The run then passes the gate and carries out the clean-up, and starting the exporter raises (`ExportCrashesAfterCleanUp`).
- The exporter's run (`subprocess.run`): the folder's contents afterwards are an arbitrary `World.exported`. Its exit status is never read, and the model does not read it either.
- SHA-1 and hex encoding: `Digest` is an arbitrary function of the file's bytes. No digest value is proved.
- Printing and `time.sleep`: only the numbers `delay_time` counts down are modelled. The countdown before the export, in `backup_calibre`, is not part of `RunBackup`.
- `argparse` parsing: `Config` holds the parsed values. An absent path and an empty one are treated alike, as Python's truth test does.
- A relative `--backup` path: the model takes it to be absolute, as its help text asks ("full path to backup location"). After `os.chdir` into it, the script opens the manifest at the same relative path again, now resolved inside the backup folder. That open normally fails, and no manifest is written. `Run` does not model this case.
- Glob metacharacters (`*`, `?`, `[`) in the `--backup` path: the model takes the path to contain none. The clean-up globs the folder path joined with `*`, so such characters would make it match, and delete, the visible files of other folders, or nothing at all. The model's `World.order` always lists the backup folder's own visible top-level names.
- Storing the manifest's text in the folder: how the lines are encoded as bytes is not modelled. `ManifestStable` covers any bytes stored under that name.
- Case-insensitive file systems (the macOS default): names are compared exactly, as on a case-sensitive file system. On a case-insensitive volume `os.path.exists` also finds `METADATA.DB`. A backup folder holding it would then be refused with 8 rather than cleaned up as `Prep` says. There `CalibreBackup.sha1` would also open an existing `calibrebackup.sha1`, which the skip at line 67 does not catch, so the manifest would list itself.
- A backup path that names an existing regular file, symbolic links, permission errors, and a library and backup folder that overlap: a folder is either missing or a directory snapshot, and the two folders are independent.
- The order of `glob('*')` is whatever the OS gives. It is an input (`World.order`), constrained only to list each visible top-level name once.
