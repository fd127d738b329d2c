/**
 * The pre-flight checks: `library_check` on the library folder, and
 * `prep_backup_location` on the backup folder, which may create it, refuse it,
 * or delete its visible top-level entries.
 */
module Preflight {
  import opened Paths
  import opened Folders
  import Countdown

  /** The marker file of a calibre library. */
  const Marker: Path := "metadata.db"

  const ExitBadLibrary: int := 4
  const ExitLooksLikeLibrary: int := 8
  const ExitNotEmpty: int := 2

  /** `library_check`: the exit status it ends the process with, or None when the library passes. */
  function LibraryCheck(library: Tree): (r: Option<int>)
    ensures r.Some? <==> Marker !in library
    ensures r.Some? ==> r.value == ExitBadLibrary
  {
    if Marker !in library then Some(ExitBadLibrary) else None
  }

  datatype Option<T> = None | Some(value: T)

  /** How `prep_backup_location` ends: returns True, exits with a status, or raises. */
  datatype Verdict = Proceed | Exit(code: int) | Crash

  /** The removal loop ends either after the last name or at the first `os.remove` that raises. */
  datatype Removal = Removed(rest: Tree) | RemoveFailed(rest: Tree)

  /**
   * The clean-up loop: `os.remove` on each name of `files`, in order. A name that is a
   * directory (or already gone) makes the removal raise; what was removed stays removed.
   */
  function RemoveEach(t: Tree, files: seq<Path>): (r: Removal)
    ensures r.rest.Keys <= t.Keys
    ensures forall p :: p in r.rest ==> r.rest[p] == t[p]
    ensures forall p :: p in t && p !in r.rest ==> p in files && t[p].File?
  {
    if files == [] then Removed(t)
    else if files[0] !in t || t[files[0]].Dir? then RemoveFailed(t)
    else RemoveEach(t - {files[0]}, files[1..])
  }

  /** When every listed name is a file, the loop removes exactly those names and nothing else. */
  lemma {:induction false} RemoveAllFiles(t: Tree, files: seq<Path>)
    requires forall i, j :: 0 <= i < j < |files| ==> files[i] != files[j]
    requires forall i :: 0 <= i < |files| ==> files[i] in t && t[files[i]].File?
    ensures RemoveEach(t, files) == Removed(map p | p in t && p !in files :: t[p])
  {
    if files == [] {
      assert (map p | p in t && p !in files :: t[p]) == t;
    } else {
      var t' := t - {files[0]};
      forall i | 0 <= i < |files| - 1
        ensures files[1..][i] in t' && t'[files[1..][i]].File?
      {
        assert files[1..][i] == files[i + 1] != files[0];
      }
      RemoveAllFiles(t', files[1..]);
      assert (map p | p in t' && p !in files[1..] :: t'[p]) == (map p | p in t && p !in files :: t[p]);
    }
  }

  /** Over names that are all present, the loop raises exactly when one of them is a directory. */
  lemma {:induction false} RemoveFailsOnDir(t: Tree, files: seq<Path>)
    requires forall i, j :: 0 <= i < j < |files| ==> files[i] != files[j]
    requires forall i :: 0 <= i < |files| ==> files[i] in t
    ensures RemoveEach(t, files).RemoveFailed? <==> exists i :: 0 <= i < |files| && t[files[i]].Dir?
  {
    if files != [] && t[files[0]].File? {
      var t' := t - {files[0]};
      forall i | 0 <= i < |files| - 1
        ensures files[1..][i] in t' && t'[files[1..][i]] == t[files[i + 1]]
      {
        assert files[1..][i] == files[i + 1] != files[0];
      }
      RemoveFailsOnDir(t', files[1..]);
      if exists i :: 0 <= i < |files| && t[files[i]].Dir? {
        var i :| 0 <= i < |files| && t[files[i]].Dir?;
        assert t'[files[1..][i - 1]].Dir?;
      }
    }
  }

  /**
   * The removal loop raised at `files[j]`: the names before it are files, and they are
   * the ones removed.
   */
  predicate StoppedAt(t: Tree, files: seq<Path>, j: int, rest: Tree) {
    && 0 <= j < |files| && files[j] in t && t[files[j]].Dir?
    && (forall i :: 0 <= i < j ==> files[i] in t && t[files[i]].File?)
    && rest == map p | p in t && p !in files[..j] :: t[p]
  }

  /**
   * Over distinct names that are all present, a raising loop stops at the first
   * directory, and the files listed before it have been removed and nothing else.
   */
  lemma {:induction false} RemoveStopsAtFirstDir(t: Tree, files: seq<Path>)
    requires forall i, j :: 0 <= i < j < |files| ==> files[i] != files[j]
    requires forall i :: 0 <= i < |files| ==> files[i] in t
    requires RemoveEach(t, files).RemoveFailed?
    ensures exists j :: StoppedAt(t, files, j, RemoveEach(t, files).rest)
  {
    if t[files[0]].Dir? {
      assert (map p | p in t && p !in files[..0] :: t[p]) == t;
      assert StoppedAt(t, files, 0, t);
    } else {
      var t' := t - {files[0]};
      var tail := files[1..];
      forall i | 0 <= i < |tail|
        ensures tail[i] in t' && t'[tail[i]] == t[files[i + 1]]
      {
        assert tail[i] == files[i + 1] != files[0];
      }
      RemoveStopsAtFirstDir(t', tail);
      var rest := RemoveEach(t', tail).rest;
      assert RemoveEach(t, files).rest == rest;
      var j :| StoppedAt(t', tail, j, rest);
      StoppedOneLater(t, files, j, rest);
    }
  }

  /** One step of `RemoveStopsAtFirstDir`: a stop in the tail is a stop one position later in the whole list. */
  lemma StoppedOneLater(t: Tree, files: seq<Path>, j: int, rest: Tree)
    requires files != [] && files[0] in t && t[files[0]].File?
    requires StoppedAt(t - {files[0]}, files[1..], j, rest)
    ensures StoppedAt(t, files, j + 1, rest)
  {
  }

  /** The branch of `prep_backup_location` that counts down and deletes. */
  predicate ReachesDeletion(clean: bool, entries: Tree) {
    |ListDir(entries)| != 0 && !clean && Marker !in entries
  }

  /** The folder after `prep_backup_location`, and how it ended. */
  datatype Prepared = Prepared(verdict: Verdict, entries: Tree)

  /**
   * `prep_backup_location` on the folder contents `entries` (empty when the folder did
   * not exist: `os.makedirs` creates it empty). `order` is the order in which
   * `glob('*')` hands out the visible top-level names.
   * As in the code, the deletion branch is the one taken when `clean` is false.
   */
  function Prep(clean: bool, entries: Tree, order: seq<Path>): (r: Prepared)
    requires IsEnumeration(order, GlobStar(entries))
    ensures r.entries.Keys <= entries.Keys
    ensures r.verdict != Exit(ExitBadLibrary)
  {
    if |ListDir(entries)| == 0 then Prepared(Proceed, entries)
    else if !clean then
      if Marker in entries then Prepared(Exit(ExitLooksLikeLibrary), entries)
      else
        match RemoveEach(entries, order)
        case Removed(rest) => Prepared(Proceed, rest)
        case RemoveFailed(rest) => Prepared(Crash, rest)
    else Prepared(Exit(ExitNotEmpty), entries)
  }

  /**
   * A real folder with nothing in its listing is the empty folder (also what
   * `os.makedirs` leaves): it proceeds and nothing is deleted.
   */
  lemma PrepEmptyFolder(clean: bool, entries: Tree, order: seq<Path>)
    requires IsEnumeration(order, GlobStar(entries))
    requires ValidTree(entries) && ListDir(entries) == {}
    ensures entries == map[] && Prep(clean, entries, order) == Prepared(Proceed, map[])
  {
    EmptyListDir(entries);
  }

  /** A non-empty folder holding the library marker is refused with 8 when `clean` is off; nothing is deleted. */
  lemma PrepLooksLikeLibrary(entries: Tree, order: seq<Path>)
    requires IsEnumeration(order, GlobStar(entries))
    requires ListDir(entries) != {} && Marker in entries
    ensures Prep(false, entries, order) == Prepared(Exit(ExitLooksLikeLibrary), entries)
  {
  }

  /** A non-empty folder with `clean` on is refused with 2, marker or not; nothing is deleted. */
  lemma PrepCleanRefused(entries: Tree, order: seq<Path>)
    requires IsEnumeration(order, GlobStar(entries))
    requires ListDir(entries) != {}
    ensures Prep(true, entries, order) == Prepared(Exit(ExitNotEmpty), entries)
  {
  }

  /**
   * A non-empty folder without the marker, `clean` off: when every visible top-level
   * name is a file, exactly those names are deleted and the run proceeds; hidden
   * names and everything nested stay as they were.
   */
  lemma PrepDeletesVisibleTopLevel(entries: Tree, order: seq<Path>)
    requires IsEnumeration(order, GlobStar(entries))
    requires ListDir(entries) != {} && Marker !in entries
    requires forall p :: p in GlobStar(entries) ==> entries[p].File?
    ensures Prep(false, entries, order).verdict == Proceed
    ensures forall p :: p in Prep(false, entries, order).entries <==> p in entries && !(IsTopLevel(p) && Visible(p))
    ensures forall p :: p in Prep(false, entries, order).entries ==> Prep(false, entries, order).entries[p] == entries[p]
  {
    RemoveAllFiles(entries, order);
  }

  /**
   * Same branch, but a visible top-level name is a directory: `os.remove` raises on the
   * first such name in the listing order. The files listed before it are deleted and
   * nothing else is, so every directory is still there.
   */
  lemma PrepCrashesOnDirectory(entries: Tree, order: seq<Path>)
    requires IsEnumeration(order, GlobStar(entries))
    requires ListDir(entries) != {} && Marker !in entries
    ensures Prep(false, entries, order).verdict == Crash <==> exists p :: p in GlobStar(entries) && entries[p].Dir?
    ensures forall p :: p in entries && p !in Prep(false, entries, order).entries ==> p in GlobStar(entries) && entries[p].File?
    ensures Prep(false, entries, order).verdict == Crash ==>
      exists j :: StoppedAt(entries, order, j, Prep(false, entries, order).entries)
  {
    RemoveFailsOnDir(entries, order);
    if exists p :: p in GlobStar(entries) && entries[p].Dir? {
      var p :| p in GlobStar(entries) && entries[p].Dir?;
      assert p in order;
      RemoveStopsAtFirstDir(entries, order);
    }
  }

  /** Whatever the branch, a real folder is still a real folder afterwards. */
  lemma PrepKeepsValid(clean: bool, entries: Tree, order: seq<Path>)
    requires IsEnumeration(order, GlobStar(entries))
    requires ValidTree(entries)
    ensures ValidTree(Prep(clean, entries, order).entries)
  {
    var after := Prep(clean, entries, order).entries;
    forall p | p in after && Sep in p
      ensures Parent(p) in after
    {
      assert Parent(p) in entries && entries[Parent(p)].Dir?;
    }
  }

  /** The backup folder on disk: whether it exists and what it holds. */
  class BackupFolder {
    var present: bool
    var entries: Tree

    ghost predicate Valid()
      reads this
    {
      !present ==> entries == map[]
    }

    constructor (present: bool, entries: Tree)
      requires !present ==> entries == map[]
      ensures Valid() && this.present == present && this.entries == entries
    {
      this.present := present;
      this.entries := entries;
    }

    /**
     * `prep_backup_location`. `order` is the order of the `glob('*')` listing; `shown`
     * is the countdown printed before deleting (empty on every other branch).
     */
    method PrepBackupLocation(clean: bool, pause: int, order: seq<Path>) returns (v: Verdict, shown: seq<int>)
      requires Valid()
      requires IsEnumeration(order, GlobStar(entries))
      modifies this
      ensures Valid() && present
      ensures Prepared(v, entries) == Prep(clean, old(entries), order)
      ensures shown == if ReachesDeletion(clean, old(entries)) then Countdown.Ticks(pause) else []
    {
      shown := [];
      if !present {
        present := true;
        entries := map[];
      }
      var fileCount := |ListDir(entries)|;
      if fileCount == 0 {
        return Proceed, shown;
      }
      if !clean {
        if Marker in entries {
          return Exit(ExitLooksLikeLibrary), shown;
        }
        shown := Countdown.DelayTime(pause);
        var ok := RemoveListed(order);
        return if ok then Proceed else Crash, shown;
      } else {
        return Exit(ExitNotEmpty), shown;
      }
    }

    /** The `os.remove` loop over the `glob('*')` names; `ok` is false when a removal raised. */
    method RemoveListed(order: seq<Path>) returns (ok: bool)
      requires present
      modifies this
      ensures Valid() && present
      ensures RemoveEach(old(entries), order) == if ok then Removed(entries) else RemoveFailed(entries)
    {
      var i := 0;
      while i < |order|
        invariant 0 <= i <= |order|
        invariant present
        invariant RemoveEach(entries, order[i..]) == RemoveEach(old(entries), order)
      {
        var f := order[i];
        if f !in entries || entries[f].Dir? {
          return false;
        }
        entries := entries - {f};
        assert order[i..][1..] == order[i + 1..];
        i := i + 1;
      }
      return true;
    }

    /** `backup_calibre`: the external exporter leaves the folder holding `after`; its status is never read. */
    method Export(after: Tree)
      requires present
      modifies this
      ensures Valid() && present && entries == after
    {
      entries := after;
    }
  }
}
