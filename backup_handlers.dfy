// The backup commands: whether a mod has a backup in the backup
// directory, and restoring a mod folder from its backup. The backup of
// the mod at `mods/<name>` is the folder `<backup directory>/<name>`.
// Restoring checks the paths, then removes the mod folder, copies the
// backup into its place and deletes the backup, with the mod folder
// hidden from the mod watcher meanwhile.

module BackupHandlers {
  import opened Common
  import opened FileSystem
  import opened AccessCheck
  import opened Services
  import opened CommandTypes

  const MetadataFailed := "Failed to get backup metadata: "
  const NotSeparate := "Backup directory cannot be inside mods path or vice versa. They must be separate directories."
  const InvalidBackupPath := "Invalid backup path detected"
  const SamePaths := "Backup path and mod path cannot be the same. Please ensure backup directory is different from mods directory."
  const BackupNotFound := "Backup not found"
  const RemoveFailed := "Failed to remove current mod folder: "
  const CopyFailed := "Failed to copy backup: "
  const DeleteFailed := "Failed to delete backup: "
  const RestoredMessage := "Backup restored successfully"

  // ---------------------------------------------------------------
  // Checking for backups.

  /**
   * What the commands report about one mod: whether its backup exists,
   * where it is looked for, and its date in seconds.
   */
  datatype BackupInfo = BackupInfo(hasBackup: bool, backupPath: Option<Path>, backupDate: Option<nat>)

  /** The answer without a backup directory. */
  const NoBackupDirectory := BackupInfo(false, None, None)

  /** Where the backup of the mod at `modPath` lives, once the folder name is known. */
  function BackupPathFor(backupDir: Path, modPath: Path): (r: Path)
    requires modPath != []
    ensures |r| == |backupDir| + 1 && IsPrefix(backupDir, r) && r[|backupDir|] == modPath[|modPath| - 1]
  {
    var bp := backupDir + [ExtractFolderName(modPath).value];
    assert bp[..|backupDir|] == backupDir;
    bp
  }

  /**
   * `check_backup`. `metadata` stands for the platform's metadata call
   * on the backup folder: its date (the modification time, else the
   * access time, else now) or the error text.
   */
  function CheckBackup(t: Tree, modPath: Path, backupDirectory: Option<Path>, metadata: Path -> Result<nat, string>)
    : (r: Result<BackupInfo, string>)
    ensures backupDirectory.None? ==> r == Ok(NoBackupDirectory)
    ensures backupDirectory.Some? && modPath == [] ==> r == Err(InvalidModPath)
    ensures backupDirectory.Some? && modPath != [] ==>
              var bp := BackupPathFor(backupDirectory.value, modPath);
              && (r.Err? <==> bp in t && metadata(bp).Err?)
              && (r.Err? ==> r.error == MetadataFailed + metadata(bp).error)
              && (r.Ok? ==> r.value.backupPath == Some(bp) && (r.value.hasBackup <==> bp in t)
                            && (r.value.backupDate.Some? <==> r.value.hasBackup))
  {
    if backupDirectory.None? then Ok(NoBackupDirectory)
    else
      var name := ExtractFolderName(modPath);
      if name.Err? then Err(name.error)
      else
        var bp := backupDirectory.value + [name.value];
        if bp in t then
          var m := metadata(bp);
          if m.Ok? then Ok(BackupInfo(true, Some(bp), Some(m.value)))
          else Err(MetadataFailed + m.error)
        else Ok(BackupInfo(false, Some(bp), None))
  }

  /**
   * The entry `check_backups` makes for one mod path, or `None` when the
   * path has no folder name and is skipped. A metadata error reads as no
   * backup.
   */
  function BatchEntry(t: Tree, modPath: Path, backupDirectory: Option<Path>, metadata: Path -> Result<nat, string>)
    : Option<BackupInfo>
  {
    if backupDirectory.None? then Some(NoBackupDirectory)
    else
      var name := ExtractFolderName(modPath);
      if name.Err? then None
      else
        var bp := backupDirectory.value + [name.value];
        if bp in t && metadata(bp).Ok? then Some(BackupInfo(true, Some(bp), Some(metadata(bp).value)))
        else Some(BackupInfo(false, Some(bp), None))
  }

  /**
   * The batch check agrees with the single check: the same answer where
   * that one succeeds, no backup where its metadata call fails, and no
   * entry where it rejects the path.
   */
  lemma BatchAgreesWithSingle(t: Tree, modPath: Path, backupDirectory: Option<Path>, metadata: Path -> Result<nat, string>)
    ensures var single := CheckBackup(t, modPath, backupDirectory, metadata);
            var batch := BatchEntry(t, modPath, backupDirectory, metadata);
            && (single.Ok? ==> batch == Some(single.value))
            && (single.Err? && modPath != [] ==>
                  batch == Some(BackupInfo(false, Some(BackupPathFor(backupDirectory.value, modPath)), None)))
            && (batch.None? <==> backupDirectory.Some? && modPath == [])
  {
  }

  /**
   * `check_backups`: an entry for every mod path that has a folder name
   * (for every path when there is no backup directory), and none for any
   * other key.
   */
  method CheckBackups(t: Tree, modPaths: seq<Path>, backupDirectory: Option<Path>, metadata: Path -> Result<nat, string>)
    returns (m: map<Path, BackupInfo>)
    ensures forall p :: p in m <==> p in modPaths && BatchEntry(t, p, backupDirectory, metadata).Some?
    ensures forall p :: p in m ==> m[p] == BatchEntry(t, p, backupDirectory, metadata).value
  {
    m := map[];
    if |modPaths| == 0 {
      return;
    }
    if backupDirectory.None? {
      for i := 0 to |modPaths|
        invariant forall p :: p in m <==> p in modPaths[..i]
        invariant forall p :: p in m ==> m[p] == NoBackupDirectory
      {
        assert modPaths[..i + 1] == modPaths[..i] + [modPaths[i]];
        m := m[modPaths[i] := NoBackupDirectory];
      }
      assert modPaths[..|modPaths|] == modPaths;
      return;
    }
    for i := 0 to |modPaths|
      invariant forall p :: p in m <==> p in modPaths[..i] && BatchEntry(t, p, backupDirectory, metadata).Some?
      invariant forall p :: p in m ==> m[p] == BatchEntry(t, p, backupDirectory, metadata).value
    {
      assert modPaths[..i + 1] == modPaths[..i] + [modPaths[i]];
      var name := ExtractFolderName(modPaths[i]);
      if name.Ok? {
        var bp := backupDirectory.value + [name.value];
        var info := if bp in t && metadata(bp).Ok? then BackupInfo(true, Some(bp), Some(metadata(bp).value))
                    else BackupInfo(false, Some(bp), None);
        m := m[modPaths[i] := info];
      }
    }
    assert modPaths[..|modPaths|] == modPaths;
  }

  // ---------------------------------------------------------------
  // Restoring a backup.

  /**
   * The path checks of `restore_backup` once the mods folder is known:
   * neither the mod path nor the backup directory may lie at or below
   * the other, the mod path needs a folder name, and the backup path
   * must lie in the backup directory and differ from the mod path.
   */
  function PathGuards(modPath: Path, backupDir: Path): (r: Result<Path, string>)
    ensures r.Ok? <==> Separate(modPath, backupDir)
    ensures r.Ok? ==> modPath != [] && r.value == BackupPathFor(backupDir, modPath) && Separate(modPath, r.value)
  {
    if IsPrefix(modPath, backupDir) || IsPrefix(backupDir, modPath) then Err(NotSeparate)
    else
      var name := ExtractFolderName(modPath);
      if name.Err? then Err(InvalidModPath)
      else
        var bp := backupDir + [name.value];
        if !IsPrefix(backupDir, bp) then Err(InvalidBackupPath)
        else if bp == modPath then Err(SamePaths)
        else
          SeparateChild(backupDir, modPath, name.value);
          Ok(bp)
  }

  /**
   * The checks after the first one never fire: a mod path and a backup
   * directory that are separate always give a distinct backup path
   * inside the backup directory, so every refusal is the first one.
   */
  lemma {:induction false} OnlyTheFirstGuardRefuses(modPath: Path, backupDir: Path)
    ensures PathGuards(modPath, backupDir).Err? ==> PathGuards(modPath, backupDir).error == NotSeparate
  {
    if Separate(modPath, backupDir) {
      var bp := backupDir + [modPath[|modPath| - 1]];
      assert bp[..|backupDir|] == backupDir;
    }
  }

  /**
   * The steps `restore_backup` completes, in order: the watcher
   * registration, then the file operations, then the registration
   * lifted, explicitly on success or by the guard dropped on an early
   * return.
   */
  datatype Step = IgnoreInWatcher | RemoveModFolder | CopyBackup | DeleteBackup | UnignoreInWatcher | GuardDropped

  /** What `restore_backup` leaves: the tree, the answer (the mod path), the access event and the steps done. */
  datatype Restored = Restored(tree: Tree, result: Result<Path, CommandError>, event: Option<AccessEvent>, steps: seq<Step>)

  /** How far the steps got: stopped at the removal, the copy or the deletion, or finished. */
  datatype Stage = AtRemove | AtCopy | AtDelete | Finished

  /**
   * The steps completed by a restore that stops at `stage`; `existed`
   * tells whether there was a mod folder to remove. The watcher
   * registration always comes first and is lifted last: explicitly by a
   * finished restore, by the guard's drop on every earlier way out.
   */
  function StepsUpTo(existed: bool, stage: Stage): (steps: seq<Step>)
    ensures |steps| >= 2 && steps[0] == IgnoreInWatcher
    ensures steps[|steps| - 1] == if stage == Finished then UnignoreInWatcher else GuardDropped
    ensures UnignoreInWatcher in steps <==> stage == Finished
    ensures GuardDropped in steps <==> stage != Finished
    ensures RemoveModFolder in steps <==> existed && stage != AtRemove
  {
    var removed := [IgnoreInWatcher] + (if existed then [RemoveModFolder] else []);
    match stage
    case AtRemove => [IgnoreInWatcher, GuardDropped]
    case AtCopy => removed + [GuardDropped]
    case AtDelete => removed + [CopyBackup, GuardDropped]
    case Finished => removed + [CopyBackup, DeleteBackup, UnignoreInWatcher]
  }

  /**
   * The restore once the backup is known to exist: remove the mod
   * folder if there is one, copy the backup into its place, delete the
   * backup, then lift the watcher registration.
   */
  function RestoreSteps(t: Tree, modPath: Path, bp: Path): Restored
  {
    var existed := modPath in t;
    if existed && !IsDir(t, modPath) then Restored(t, Err(Message(RemoveFailed)), None, StepsUpTo(existed, AtRemove))
    else
      var t2 := if existed then RemoveTreeSpec(t, modPath) else t;
      var t3 := CopySpec(t2, bp, modPath);
      if !CopyOk(t2, bp, modPath) then Restored(t3, Err(Message(CopyFailed)), None, StepsUpTo(existed, AtCopy))
      else if !IsDir(t3, bp) then Restored(t3, Err(Message(DeleteFailed)), None, StepsUpTo(existed, AtDelete))
      else Restored(RemoveTreeSpec(t3, bp), Ok(modPath), None, StepsUpTo(existed, Finished))
  }

  /**
   * `restore_backup`: the mods folder is the parent of the mod path and
   * must pass the access check; then the path checks, then the backup
   * must exist; only then do the steps start.
   */
  function RestoreSpec(t: Tree, modPath: Path, backupDir: Path, perms: Permissions): Restored
  {
    var modsPath := GetModsPathFromModPath(modPath);
    if modsPath.Err? then Restored(t, Err(Message(modsPath.error)), None, [])
    else
      var c := AccessSpec(t, modsPath.value, perms);
      if c.result.Err? then
        Restored(c.tree, Err(Denied(NoAccess(c.result.error))), Some(EventOf(PathText(modsPath.value), c.result.error)), [])
      else
        var guards := PathGuards(modPath, backupDir);
        if guards.Err? then Restored(c.tree, Err(Message(guards.error)), None, [])
        else if guards.value !in c.tree then Restored(c.tree, Err(Message(BackupNotFound)), None, [])
        else RestoreSteps(c.tree, modPath, guards.value)
  }

  /** The restore on the file system object. */
  method RestoreBackup(fs: Fs, modPath: Path, backupDir: Path, perms: Permissions)
    returns (r: Result<Path, CommandError>, event: Option<AccessEvent>, steps: seq<Step>)
    requires fs.Valid()
    modifies fs
    ensures fs.Valid()
    ensures Restored(fs.tree, r, event, steps) == RestoreSpec(old(fs.tree), modPath, backupDir, perms)
  {
    steps := [];
    var modsPath := GetModsPathFromModPath(modPath);
    if modsPath.Err? {
      return Err(Message(modsPath.error)), None, steps;
    }
    var access;
    access, event := EnsureDirectoryAccess(fs, modsPath.value, PathText(modsPath.value), perms);
    if access.Err? {
      return Err(Denied(access.error)), event, steps;
    }
    var guards := PathGuards(modPath, backupDir);
    if guards.Err? {
      return Err(Message(guards.error)), event, steps;
    }
    var bp := guards.value;
    if bp !in fs.tree {
      return Err(Message(BackupNotFound)), event, steps;
    }
    r, steps := RestoreFromBackup(fs, modPath, bp);
  }

  /** The steps of the restore on the file system object. */
  method RestoreFromBackup(fs: Fs, modPath: Path, bp: Path) returns (r: Result<Path, CommandError>, steps: seq<Step>)
    requires fs.Valid() && modPath != [] && Separate(modPath, bp)
    modifies fs
    ensures fs.Valid()
    ensures Restored(fs.tree, r, None, steps) == RestoreSteps(old(fs.tree), modPath, bp)
  {
    var existed := modPath in fs.tree;
    var ok;
    if existed {
      ok := fs.RemoveDirAll(modPath);
      if !ok {
        return Err(Message(RemoveFailed)), StepsUpTo(existed, AtRemove);
      }
      assert IsPrefix(modPath, modPath);
    }
    ok := fs.CopyDirAll(bp, modPath);
    if !ok {
      return Err(Message(CopyFailed)), StepsUpTo(existed, AtCopy);
    }
    ok := fs.RemoveDirAll(bp);
    if !ok {
      return Err(Message(DeleteFailed)), StepsUpTo(existed, AtDelete);
    }
    return Ok(modPath), StepsUpTo(existed, Finished);
  }

  /** `t2` differs from `t` at most by the access check's probe in the mods folder having gone. */
  ghost predicate AtMostProbeGone(t: Tree, t2: Tree, modsPath: Path)
  {
    && (forall q :: q in t2 ==> q in t && t2[q] == t[q])
    && (forall q :: q in t && q !in t2 ==> q == ProbePath(modsPath))
  }

  /**
   * Every refusal happens before anything is deleted: a mod path and a
   * backup directory that are not separate are refused (once the access
   * check passes), so is a missing backup, and a refused restore has
   * taken no step and changed nothing but the access check's probe.
   */
  lemma RefusedBeforeDeleting(t: Tree, modPath: Path, backupDir: Path, perms: Permissions)
    requires modPath != []
    ensures var r := RestoreSpec(t, modPath, backupDir, perms);
            var modsPath := modPath[..|modPath| - 1];
            && (r.steps == [] ==> r.result.Err? && AtMostProbeGone(t, r.tree, modsPath))
            && (r.steps != [] ==> Separate(modPath, backupDir) && BackupPathFor(backupDir, modPath) in t
                                  && r.steps[0] == IgnoreInWatcher)
            && (AccessSpec(t, modsPath, perms).result.Ok? ==>
                  && (!Separate(modPath, backupDir) ==> r.result == Err(Message(NotSeparate)))
                  && (Separate(modPath, backupDir) && BackupPathFor(backupDir, modPath) !in t ==>
                        r.result == Err(Message(BackupNotFound)) && r.steps == []))
  {
    var modsPath := modPath[..|modPath| - 1];
    OnlyTheFirstGuardRefuses(modPath, backupDir);
    ProbeCleanedUp(t, modsPath, perms);
    if Separate(modPath, backupDir) {
      ProbeNotBackup(modPath, backupDir);
    }
  }

  /** Under separate paths the access check's probe is neither the backup nor below it. */
  lemma ProbeNotBackup(modPath: Path, backupDir: Path)
    requires modPath != [] && Separate(modPath, backupDir)
    ensures !IsPrefix(BackupPathFor(backupDir, modPath), ProbePath(modPath[..|modPath| - 1]))
  {
    var modsPath := modPath[..|modPath| - 1];
    var bp := BackupPathFor(backupDir, modPath);
    var probe := ProbePath(modsPath);
    if IsPrefix(bp, probe) {
      PrefixTransitive(backupDir, bp, probe);
      assert probe[..|modsPath|] == modsPath;
      PrefixesComparable(backupDir, modsPath, probe);
      if IsPrefix(backupDir, modsPath) {
        assert modPath[..|modsPath|] == modsPath;
        PrefixTransitive(backupDir, modsPath, modPath);
      }
    }
  }

  /**
   * A restore that succeeds leaves the mod folder holding exactly what
   * the backup held, and the backup gone.
   */
  lemma RestoreReplacesModFolder(t: Tree, modPath: Path, backupDir: Path, perms: Permissions)
    requires WellFormed(t)
    ensures var r := RestoreSpec(t, modPath, backupDir, perms);
            r.result.Ok? ==>
              var bp := BackupPathFor(backupDir, modPath);
              && r.result.value == modPath
              && Mirrors(r.tree, modPath, t, bp)
              && bp !in r.tree
  {
    if modPath != [] && Separate(modPath, backupDir) {
      var modsPath := modPath[..|modPath| - 1];
      var c := AccessSpec(t, modsPath, perms);
      var bp := BackupPathFor(backupDir, modPath);
      if c.result.Ok? && bp in c.tree {
        ProbeCleanedUp(t, modsPath, perms);
        AccessKeepsWellFormed(t, modsPath, perms);
        ProbeNotBackup(modPath, backupDir);
        ProbeKeepsBackup(t, c.tree, modsPath, bp);
        StepsReplaceModFolder(c.tree, t, modPath, bp);
      }
    }
  }

  /**
   * The steps a restore takes: the watcher registration first and its
   * release last, explicitly only by a restore that succeeds, after
   * removing the mod folder (when there was one), copying the backup and
   * deleting it, in that order; a restore that fails after registering
   * releases it through the guard.
   */
  lemma RestoreStepsInOrder(t: Tree, modPath: Path, backupDir: Path, perms: Permissions)
    ensures var r := RestoreSpec(t, modPath, backupDir, perms);
            && (r.steps != [] ==> r.steps[0] == IgnoreInWatcher)
            && (r.steps != [] ==> r.steps[|r.steps| - 1] == if r.result.Ok? then UnignoreInWatcher else GuardDropped)
            && (UnignoreInWatcher in r.steps <==> r.result.Ok?)
            && (r.result.Ok? ==> r.steps == StepsUpTo(IsDir(t, modPath), Finished))
  {
    if modPath != [] && Separate(modPath, backupDir) {
      var modsPath := modPath[..|modPath| - 1];
      var c := AccessSpec(t, modsPath, perms);
      var bp := BackupPathFor(backupDir, modPath);
      if c.result.Ok? && bp in c.tree {
        ProbeCleanedUp(t, modsPath, perms);
        StepsInOrder(c.tree, modPath, bp);
      }
    }
  }

  /** The access check leaves the backup as it was when the probe is not at or below it. */
  lemma ProbeKeepsBackup(t: Tree, t1: Tree, modsPath: Path, bp: Path)
    requires AtMostProbeGone(t, t1, modsPath) && !IsPrefix(bp, ProbePath(modsPath))
    ensures SameBelow(t1, t, bp)
  {
  }

  /** The steps on the tree after the access check, in order. */
  lemma StepsInOrder(t1: Tree, modPath: Path, bp: Path)
    ensures var r := RestoreSteps(t1, modPath, bp);
            && r.steps != [] && r.steps[0] == IgnoreInWatcher
            && r.steps[|r.steps| - 1] == (if r.result.Ok? then UnignoreInWatcher else GuardDropped)
            && (UnignoreInWatcher in r.steps <==> r.result.Ok?)
            && (r.result.Ok? ==> r.steps == StepsUpTo(IsDir(t1, modPath), Finished))
  {
  }

  /** The tree the steps leave on the tree after the access check. */
  lemma StepsReplaceModFolder(t1: Tree, t: Tree, modPath: Path, bp: Path)
    requires WellFormed(t1) && modPath != [] && Separate(modPath, bp) && SameBelow(t1, t, bp)
    ensures var r := RestoreSteps(t1, modPath, bp);
            r.result.Ok? ==> r.result.value == modPath && Mirrors(r.tree, modPath, t, bp) && bp !in r.tree
  {
    var r := RestoreSteps(t1, modPath, bp);
    if r.result.Ok? {
      var t2 := if modPath in t1 then RemoveTreeSpec(t1, modPath) else t1;
      ModFolderCleared(t1, t, modPath, bp);
      CopyThenDelete(t2, t, modPath, bp);
    }
  }

  /** After the removal step the mod folder is gone and the backup is as it was. */
  lemma ModFolderCleared(t1: Tree, t: Tree, modPath: Path, bp: Path)
    requires WellFormed(t1) && Separate(modPath, bp) && SameBelow(t1, t, bp)
    ensures var t2 := if modPath in t1 then RemoveTreeSpec(t1, modPath) else t1;
            WellFormed(t2) && modPath !in t2 && SameBelow(t2, t, bp)
  {
    var t2 := if modPath in t1 then RemoveTreeSpec(t1, modPath) else t1;
    assert IsPrefix(modPath, modPath);
    RemoveChangesAround(t1, modPath);
    AroundKeepsSeparate(t1, t2, modPath, bp);
    SameBelowSymmetric(t1, t2, bp);
    if modPath in t1 {
      RemoveTreeWellFormed(t1, modPath);
    }
  }

  /** Copying the backup into the cleared mod folder and deleting the backup leaves its contents in the mod folder. */
  lemma CopyThenDelete(t2: Tree, t: Tree, modPath: Path, bp: Path)
    requires WellFormed(t2) && CopyOk(t2, bp, modPath) && modPath !in t2 && Separate(modPath, bp)
    requires SameBelow(t2, t, bp)
    ensures var t4 := RemoveTreeSpec(CopySpec(t2, bp, modPath), bp);
            Mirrors(t4, modPath, t, bp) && bp !in t4
  {
    var t3 := CopySpec(t2, bp, modPath);
    CopyMirrorsSource(t2, bp, modPath);
    MirrorsKeptAtSrc(t3, modPath, t2, t, bp);
    RemoveChangesAround(t3, bp);
    AroundKeepsSeparate(t3, RemoveTreeSpec(t3, bp), bp, modPath);
    MirrorsKeptAtDst(t3, RemoveTreeSpec(t3, bp), modPath, t, bp);
    assert IsPrefix(bp, bp);
  }

  // ---------------------------------------------------------------
  // Restoring several backups.

  /** What `restore_backups` reports for one mod: the restored mod path, or the error. */
  datatype RestoreEntry = Succeeded(modPath: Path) | Failed(error: CommandError)

  function EntryOf(r: Result<Path, CommandError>): RestoreEntry
  {
    if r.Ok? then Succeeded(r.value) else Failed(r.error)
  }

  /** The answers of the restores, keyed by mod path in input order: a later answer for the same path replaces an earlier one. */
  function ResultMap(modPaths: seq<Path>, outcomes: seq<Result<Path, CommandError>>): map<Path, RestoreEntry>
    requires |outcomes| == |modPaths|
  {
    if |modPaths| == 0 then map[]
    else
      var n := |modPaths| - 1;
      ResultMap(modPaths[..n], outcomes[..n])[modPaths[n] := EntryOf(outcomes[n])]
  }

  /** One entry per input path, and no other key. */
  lemma {:induction false} ResultMapKeys(modPaths: seq<Path>, outcomes: seq<Result<Path, CommandError>>)
    requires |outcomes| == |modPaths|
    ensures forall p :: p in ResultMap(modPaths, outcomes) <==> p in modPaths
  {
    if |modPaths| > 0 {
      var n := |modPaths| - 1;
      ResultMapKeys(modPaths[..n], outcomes[..n]);
      assert modPaths == modPaths[..n] + [modPaths[n]];
    }
  }

  /** No later position holds the same path as position `i`. */
  ghost predicate LastOccurrence(modPaths: seq<Path>, i: nat)
  {
    forall j :: i < j < |modPaths| ==> modPaths[j] != modPaths[i]
  }

  /**
   * The entry of a path is the answer of its last restore: a success
   * exactly when that restore answered Ok.
   */
  lemma {:induction false} ResultMapLast(modPaths: seq<Path>, outcomes: seq<Result<Path, CommandError>>, i: nat)
    requires |outcomes| == |modPaths| && i < |modPaths| && LastOccurrence(modPaths, i)
    ensures modPaths[i] in ResultMap(modPaths, outcomes)
    ensures ResultMap(modPaths, outcomes)[modPaths[i]] == EntryOf(outcomes[i])
    ensures ResultMap(modPaths, outcomes)[modPaths[i]].Succeeded? <==> outcomes[i].Ok?
  {
    var n := |modPaths| - 1;
    if i < n {
      assert modPaths[n] != modPaths[i];
      assert LastOccurrence(modPaths[..n], i) by {
        forall j | i < j < n
          ensures modPaths[..n][j] != modPaths[..n][i]
        {
          assert modPaths[j] != modPaths[i];
        }
      }
      ResultMapLast(modPaths[..n], outcomes[..n], i);
    }
  }

  /**
   * The restores in turn: `trees[i]` is the tree the i-th restore
   * starts on and `trees[i + 1]` the one it leaves, and `outcomes[i]`
   * is its answer.
   */
  ghost predicate RestoredInTurn(trees: seq<Tree>, modPaths: seq<Path>, outcomes: seq<Result<Path, CommandError>>,
                                 backupDir: Path, perms: Permissions)
  {
    && |trees| == |modPaths| + 1 && |outcomes| == |modPaths|
    && (|modPaths| > 0 ==>
          var n := |modPaths| - 1;
          var r := RestoreSpec(trees[n], modPaths[n], backupDir, perms);
          && RestoredInTurn(trees[..n + 1], modPaths[..n], outcomes[..n], backupDir, perms)
          && r.tree == trees[n + 1] && r.result == outcomes[n])
  }

  /** Each restore in the chain is the one its mod path calls for, on the tree the previous one left. */
  lemma {:induction false} RestoredInTurnAt(trees: seq<Tree>, modPaths: seq<Path>, outcomes: seq<Result<Path, CommandError>>,
                                            backupDir: Path, perms: Permissions, i: nat)
    requires RestoredInTurn(trees, modPaths, outcomes, backupDir, perms) && i < |modPaths|
    ensures RestoreSpec(trees[i], modPaths[i], backupDir, perms).tree == trees[i + 1]
    ensures RestoreSpec(trees[i], modPaths[i], backupDir, perms).result == outcomes[i]
  {
    var n := |modPaths| - 1;
    if i < n {
      RestoredInTurnAt(trees[..n + 1], modPaths[..n], outcomes[..n], backupDir, perms, i);
    }
  }

  /**
   * `restore_backups`: each mod path is restored in turn from the same
   * backup directory and the answers are collected into the result map.
   */
  method RestoreBackups(fs: Fs, modPaths: seq<Path>, backupDir: Path, perms: Permissions)
    returns (m: map<Path, RestoreEntry>, outcomes: seq<Result<Path, CommandError>>, ghost trees: seq<Tree>)
    requires fs.Valid()
    modifies fs
    ensures fs.Valid()
    ensures RestoredInTurn(trees, modPaths, outcomes, backupDir, perms)
    ensures trees[0] == old(fs.tree) && trees[|modPaths|] == fs.tree
    ensures m == ResultMap(modPaths, outcomes)
  {
    m, outcomes, trees := map[], [], [fs.tree];
    if |modPaths| == 0 {
      return;
    }
    for i := 0 to |modPaths|
      invariant fs.Valid()
      invariant RestoredInTurn(trees, modPaths[..i], outcomes, backupDir, perms)
      invariant trees[0] == old(fs.tree) && trees[i] == fs.tree
      invariant m == ResultMap(modPaths[..i], outcomes)
    {
      var r, _, _ := RestoreBackup(fs, modPaths[i], backupDir, perms);
      assert modPaths[..i + 1][..i] == modPaths[..i];
      assert (outcomes + [r])[..i] == outcomes;
      assert (trees + [fs.tree])[..i + 1] == trees;
      m := m[modPaths[i] := EntryOf(r)];
      outcomes := outcomes + [r];
      trees := trees + [fs.tree];
    }
    assert modPaths[..|modPaths|] == modPaths;
  }
}
