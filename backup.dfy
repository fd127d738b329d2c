/**
 * The run of calibre_backup.py as a whole: the argument check, the lookup of the
 * exporter, `library_check`, `prep_backup_location`, and, when preparation returns
 * True, the export followed by the manifest. Each fatal step ends the process with
 * its exit status; here the steps return an outcome instead.
 */
module Backup {
  import opened Paths
  import opened Folders
  import opened Preflight
  import opened Manifest
  import opened ManifestProperties

  const ExitUsage: int := 2
  const ExitNoTool: int := 2

  /** The command line, in place of the script's globals: `--clean`, `--backup`, `--library`, `--wait`. */
  datatype Config = Config(clean: bool, backup: Option<string>, library: Option<string>, pause: int)

  /** Python truthiness of an optional path: absent and "" both count as not given. */
  predicate Given(path: Option<string>) {
    path.Some? && path.value != ""
  }

  predicate ArgsMissing(cfg: Config) {
    !Given(cfg.backup) || !Given(cfg.library)
  }

  /**
   * What the run meets outside the script: the text `which calibre-debug` printed
   * (stdout and stderr together), whether that text names a program that can be
   * started, the library folder, the backup folder (whether it exists, what it holds),
   * the order of its `glob('*')` listing, what the exporter leaves in it, and SHA-1.
   */
  datatype World = World(
    whichOutput: string,
    toolRuns: bool,
    library: Tree,
    present: bool,
    backup: Tree,
    order: seq<Path>,
    exported: Tree,
    digest: Digest)

  predicate Consistent(w: World) {
    (!w.present ==> w.backup == map[]) && IsEnumeration(w.order, GlobStar(w.backup))
  }

  /** How the run ends. */
  datatype Outcome =
    | Exited(code: int)                // sys.exit(code)
    | PrepCrashed                      // os.remove raised during the clean-up
    | ExportCrashed                    // starting the exporter raised
    | ManifestFailed(lines: seq<string>) // opening a path raised; the manifest holds `lines`
    | Finished(lines: seq<string>)     // the manifest was written in full

  /** The outcome and the backup folder afterwards. */
  datatype Ending = Ending(outcome: Outcome, present: bool, backup: Tree)

  /**
   * The `__main__` block as a function of the command line and the world. Only a run
   * that passes the three checks reaches `prep_backup_location`, so only such a run
   * can create the backup folder, crash, or write a manifest.
   */
  ghost function Run(cfg: Config, w: World): (e: Ending)
    requires Consistent(w)
    ensures e.present <==> w.present || PassesGates(cfg, w)
    ensures !e.outcome.Exited? ==> PassesGates(cfg, w)
  {
    if ArgsMissing(cfg) then Ending(Exited(ExitUsage), w.present, w.backup)
    else if w.whichOutput == "" then Ending(Exited(ExitNoTool), w.present, w.backup)
    else if LibraryCheck(w.library).Some? then Ending(Exited(LibraryCheck(w.library).value), w.present, w.backup)
    else
      var prepared := Prep(cfg.clean, w.backup, w.order);
      match prepared.verdict
      case Exit(code) => Ending(Exited(code), true, prepared.entries)
      case Crash => Ending(PrepCrashed, true, prepared.entries)
      case Proceed =>
        if !w.toolRuns then Ending(ExportCrashed, true, prepared.entries)
        else match ManifestOf(w.exported, w.digest)
        case Completed(lines) => Ending(Finished(lines), true, w.exported)
        case Failed(lines) => Ending(ManifestFailed(lines), true, w.exported)
  }

  /**
   * A missing `--backup` or `--library` ends the run with 2 before anything else:
   * the result does not depend on the tool, the library or the folder contents,
   * and the folder is left as it was.
   */
  lemma ArgumentGate(cfg: Config, w: World, w': World)
    requires Consistent(w) && Consistent(w')
    requires ArgsMissing(cfg)
    requires w'.present == w.present && w'.backup == w.backup
    ensures Run(cfg, w) == Ending(Exited(ExitUsage), w.present, w.backup)
    ensures Run(cfg, w') == Run(cfg, w)
  {
  }

  /** When `which` printed nothing the run ends with 2, before the library or the folder is looked at. */
  lemma ToolGate(cfg: Config, w: World, w': World)
    requires Consistent(w) && Consistent(w')
    requires !ArgsMissing(cfg) && w.whichOutput == "" && w'.whichOutput == ""
    requires w'.present == w.present && w'.backup == w.backup
    ensures Run(cfg, w) == Ending(Exited(ExitNoTool), w.present, w.backup)
    ensures Run(cfg, w') == Run(cfg, w)
  {
  }

  /** The run ends with 4 exactly when the checks before it pass and `metadata.db` is missing from the library; nothing is changed. */
  lemma LibraryGate(cfg: Config, w: World)
    requires Consistent(w)
    ensures Run(cfg, w).outcome == Exited(ExitBadLibrary) <==> !ArgsMissing(cfg) && w.whichOutput != "" && Marker !in w.library
    ensures Run(cfg, w).outcome == Exited(ExitBadLibrary) ==> Run(cfg, w).present == w.present && Run(cfg, w).backup == w.backup
  {
  }

  /** The checks that come before `prep_backup_location` all pass. */
  predicate PassesGates(cfg: Config, w: World) {
    !ArgsMissing(cfg) && w.whichOutput != "" && Marker in w.library
  }

  /**
   * The run ends with 8 exactly when the gates pass, the folder lists something,
   * `--clean` was not given and the folder holds `metadata.db`. Nothing is deleted.
   */
  lemma RefusesLibraryAsBackup(cfg: Config, w: World)
    requires Consistent(w)
    ensures Run(cfg, w).outcome == Exited(ExitLooksLikeLibrary) <==>
      PassesGates(cfg, w) && ListDir(w.backup) != {} && !cfg.clean && Marker in w.backup
    ensures Run(cfg, w).outcome == Exited(ExitLooksLikeLibrary) ==> Run(cfg, w).backup == w.backup
  {
  }

  /** Once past the gates, `--clean` on a folder that lists something ends with 2, marker or not; nothing is deleted. */
  lemma CleanFlagRefusesNonEmpty(cfg: Config, w: World)
    requires Consistent(w)
    requires PassesGates(cfg, w) && cfg.clean && ListDir(w.backup) != {}
    ensures Run(cfg, w) == Ending(Exited(ExitNotEmpty), true, w.backup)
  {
  }

  /** Every exit status the run can end with. */
  lemma ExitStatuses(cfg: Config, w: World)
    requires Consistent(w)
    ensures Run(cfg, w).outcome.Exited? ==> Run(cfg, w).outcome.code in {2, 4, 8}
  {
  }

  /**
   * The folder is changed only by its creation, the clean-up deletions and the exporter:
   * an exit leaves it exactly as it was, a failed clean-up only removes entries, and the
   * manifest is built over what the exporter left.
   */
  lemma WhatChangesTheFolder(cfg: Config, w: World)
    requires Consistent(w)
    ensures Run(cfg, w).outcome.Exited? ==> Run(cfg, w).present == w.present && Run(cfg, w).backup == w.backup
    ensures Run(cfg, w).outcome.PrepCrashed? || Run(cfg, w).outcome.ExportCrashed? ==> Run(cfg, w).backup.Keys <= w.backup.Keys
    ensures Run(cfg, w).outcome.Finished? || Run(cfg, w).outcome.ManifestFailed? ==>
      PassesGates(cfg, w) && Run(cfg, w).backup == w.exported && Run(cfg, w).outcome.lines == ManifestOf(w.exported, w.digest).lines
  {
  }

  /**
   * `which` printed something that is not a program (a miss reported on stderr, or the
   * shell's own error): the gate lets the run through, the clean-up runs as usual, and
   * then starting the exporter raises. The folder is left as the clean-up left it and
   * no manifest is written.
   */
  lemma ExportCrashesAfterCleanUp(cfg: Config, w: World)
    requires Consistent(w)
    requires PassesGates(cfg, w) && !w.toolRuns
    requires Prep(cfg.clean, w.backup, w.order).verdict == Proceed
    ensures Run(cfg, w) == Ending(ExportCrashed, true, Prep(cfg.clean, w.backup, w.order).entries)
  {
  }

  /**
   * A complete run: the lines written are one per visible path of the exported folder
   * other than the manifest itself, in sorted order, each with the digest of that file.
   */
  lemma FinishedManifest(cfg: Config, w: World)
    requires Consistent(w)
    requires Run(cfg, w).outcome.Finished?
    ensures var lines := Run(cfg, w).outcome.lines; var ps := ManifestPaths(w.exported);
      && |lines| == |ps|
      && forall k :: 0 <= k < |lines| ==> w.exported[ps[k]].File? && lines[k] == FormatLine(w.digest(w.exported[ps[k]].data), ps[k])
  {
    ManifestLines(w.exported, w.digest);
  }

  /**
   * The run with the script's own steps: the folder object is changed by
   * `PrepBackupLocation` and `Export`, and the manifest is built over it.
   */
  method RunBackup(cfg: Config, w: World, folder: BackupFolder) returns (outcome: Outcome)
    requires Consistent(w)
    requires folder.present == w.present && folder.entries == w.backup
    modifies folder
    ensures Run(cfg, w) == Ending(outcome, folder.present, folder.entries)
  {
    if ArgsMissing(cfg) {
      return Exited(ExitUsage);
    }
    if w.whichOutput == "" {
      return Exited(ExitNoTool);
    }
    var libraryExit := LibraryCheck(w.library);
    if libraryExit.Some? {
      return Exited(libraryExit.value);
    }
    var verdict, _ := folder.PrepBackupLocation(cfg.clean, cfg.pause, w.order);
    match verdict {
      case Exit(code) => return Exited(code);
      case Crash => return PrepCrashed;
      case Proceed =>
    }
    if !w.toolRuns {
      return ExportCrashed;
    }
    folder.Export(w.exported);
    var manifest := BuildManifest(folder.entries, w.digest);
    match manifest {
      case Completed(lines) => return Finished(lines);
      case Failed(lines) => return ManifestFailed(lines);
    }
  }
}
