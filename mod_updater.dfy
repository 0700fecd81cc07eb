// The desktop front end's installer (`mod_updater.rs`). Its sanitiser,
// folder search and create / back up / remove / copy sequence take the
// same steps as the backend's `mod_manager.rs` and share that model;
// what differs is how a folder name is chosen when none is found, and
// that this installer passes on the file system's own errors where the
// backend words its own "Failed to ..." messages (the model keeps the
// backend's wording for both).

module ModUpdater {
  import opened Common
  import opened FileSystem
  import opened ModQuery
  import opened ModManager

  /**
   * Which names the front end's `update_mod` may pick: the caller's
   * name if given; otherwise a sub-directory that already holds the
   * mod; otherwise the sanitised mod ID (the title is not available
   * here, and no suffix is added).
   */
  ghost predicate FrontendNameChoice(t: Tree, modsPath: Path, modId: string, existingFolderName: Option<string>,
                                     name: string)
  {
    if existingFolderName.Some? then name == existingFolderName.value
    else if HasModFolder(t, modsPath, modId) then HoldsMod(t, modsPath + [name], modId)
    else name == SanitizeFolderName(modId)
  }

  /** The folder-name step: an error only when the mods folder has to be listed and cannot be. */
  method ResolveFolderName(t: Tree, modsPath: Path, modId: string, existingFolderName: Option<string>)
    returns (r: Result<string, string>)
    ensures r.Err? <==> existingFolderName.None? && !IsDir(t, modsPath)
    ensures r.Ok? ==> FrontendNameChoice(t, modsPath, modId, existingFolderName, r.value)
  {
    if existingFolderName.Some? {
      return Ok(existingFolderName.value);
    }
    var found := FindExistingModFolder(t, modsPath, modId);
    if found.Err? {
      return Err(found.error);
    }
    if found.value.Some? {
      var folder := found.value.value;
      var name := folder[|modsPath|];
      ChildOf(modsPath, folder);
      return Ok(name);
    }
    assert !HasModFolder(t, modsPath, modId);
    return Ok(SanitizeFolderName(modId));
  }

  /**
   * Without a caller's name and without a folder already holding the
   * mod, the front end installs into a folder named after the ID alone:
   * an ID made only of digits is kept as it is.
   */
  lemma NumericIdNamesFolder(modId: string)
    requires modId != [] && AllDigits(modId) && |modId| <= MaxNameLength
    ensures SanitizeFolderName(modId) == modId
  {
    assert forall i :: 0 <= i < |modId| ==> IsDigit(modId[i]) && !Forbidden(modId[i]) && !DotOrWhitespace(modId[i]);
    SanitizeKeepsClean(modId);
  }

  /**
   * The front end's `update_mod`: fix the folder name, then create,
   * back up, remove and copy as the backend does. `name` is the folder
   * name it settled on.
   */
  method UpdateMod(fs: Fs, modId: string, modPath: Path, downloadPath: Path, modsPath: Path,
                   existingFolderName: Option<string>, createBackup: bool, backupDirectory: Option<Path>)
    returns (r: Result<Path, string>, name: string)
    requires fs.Valid() && SeparateAreas(modPath, downloadPath, modsPath, BackupTarget(createBackup, backupDirectory))
    modifies fs
    ensures fs.Valid()
    ensures existingFolderName.None? && !IsDir(old(fs.tree), modsPath) ==> r.Err? && fs.tree == old(fs.tree)
    ensures existingFolderName.Some? || IsDir(old(fs.tree), modsPath) ==>
              && FrontendNameChoice(old(fs.tree), modsPath, modId, existingFolderName, name)
              && Install(fs.tree, r) == InstallSpec(old(fs.tree), name, modId, modPath, downloadPath, modsPath,
                                                    BackupTarget(createBackup, backupDirectory))
  {
    var folder := ResolveFolderName(fs.tree, modsPath, modId, existingFolderName);
    if folder.Err? {
      return Err(folder.error), "";
    }
    name := folder.value;
    r := InstallAs(fs, name, modId, modPath, downloadPath, modsPath, BackupTarget(createBackup, backupDirectory));
  }
}
