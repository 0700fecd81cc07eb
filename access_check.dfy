// The directory-access check run before the mods folder is changed:
// does the path exist, is it a directory, can it be listed, and can a
// probe file be created and written in it. What the platform would
// permit is a parameter; the probe file lives in the modelled tree.

module AccessCheck {
  import opened Common
  import opened FileSystem

  /** What the platform permits on the directory: listing it, creating a file in it, writing to that file. */
  datatype Permissions = Permissions(list: bool, create: bool, write: bool)

  datatype Reason = NotFound | NotADirectory | CannotRead | CannotWrite

  datatype AccessError = AccessError(path: Path, canRead: bool, canWrite: bool, reason: Reason)

  /** The probe file created to test for write access. */
  function ProbePath(path: Path): Path
  {
    path + [".access_test_temp_file"]
  }

  /** The tree after a check, and its outcome. */
  datatype Checked = Checked(tree: Tree, result: Result<(), AccessError>)

  /**
   * `check_directory_access`. The probe is created (truncating a file
   * already there) when creation is permitted and no directory is in
   * the way; once created it is removed again whether or not the write
   * worked.
   */
  function AccessSpec(t: Tree, path: Path, perms: Permissions): Checked
  {
    if path !in t then Checked(t, Err(AccessError(path, false, false, NotFound)))
    else if !IsDir(t, path) then Checked(t, Err(AccessError(path, false, false, NotADirectory)))
    else if !perms.list then Checked(t, Err(AccessError(path, false, false, CannotRead)))
    else
      var created := perms.create && !IsDir(t, ProbePath(path));
      var after := if created then RemoveFileSpec(t, ProbePath(path)) else t;
      if created && perms.write then Checked(after, Ok(()))
      else Checked(after, Err(AccessError(path, true, false, CannotWrite)))
  }

  /**
   * The outcomes: access is granted exactly when the directory exists
   * and listing, creating and writing all work; a missing path, a file
   * and an unlistable directory report neither access; a directory that
   * can be listed but not written reports read access only.
   */
  lemma AccessOutcomes(t: Tree, path: Path, perms: Permissions)
    ensures var r := AccessSpec(t, path, perms).result;
            && (r.Ok? <==> IsDir(t, path) && perms.list && perms.create && perms.write && !IsDir(t, ProbePath(path)))
            && (r.Err? ==> r.error.path == path && !r.error.canWrite)
            && (r.Err? && r.error.canRead <==> r.Err? && r.error.reason == CannotWrite)
            && (r.Err? && r.error.reason == NotFound <==> path !in t)
            && (r.Err? && r.error.reason == NotADirectory <==> IsFile(t, path))
            && (r.Err? && r.error.reason == CannotRead <==> IsDir(t, path) && !perms.list)
  {
  }

  /**
   * The check leaves no probe behind: the probe path is gone after any
   * check that created it, and nothing else changes.
   */
  lemma ProbeCleanedUp(t: Tree, path: Path, perms: Permissions)
    ensures var c := AccessSpec(t, path, perms);
            && (IsDir(t, path) && perms.list && perms.create && !IsDir(t, ProbePath(path)) ==> ProbePath(path) !in c.tree)
            && (forall q :: q != ProbePath(path) ==> (q in c.tree <==> q in t))
            && (forall q :: q in c.tree ==> c.tree[q] == t[q])
  {
  }

  /** The check keeps the tree well formed: the probe it may remove is a file or absent. */
  lemma AccessKeepsWellFormed(t: Tree, path: Path, perms: Permissions)
    requires WellFormed(t)
    ensures WellFormed(AccessSpec(t, path, perms).tree)
  {
    var probe := ProbePath(path);
    if IsFile(t, probe) {
      RemoveFileWellFormed(t, probe);
    } else if probe !in t {
      assert RemoveFileSpec(t, probe) == t;
    }
  }

  method CheckDirectoryAccess(fs: Fs, path: Path, perms: Permissions) returns (r: Result<(), AccessError>)
    requires fs.Valid()
    modifies fs
    ensures fs.Valid()
    ensures Checked(fs.tree, r) == AccessSpec(old(fs.tree), path, perms)
  {
    if path !in fs.tree {
      return Err(AccessError(path, false, false, NotFound));
    }
    if !IsDir(fs.tree, path) {
      return Err(AccessError(path, false, false, NotADirectory));
    }
    if !perms.list {
      return Err(AccessError(path, false, false, CannotRead));
    }
    var probe := ProbePath(path);
    assert probe[..|probe| - 1] == path;
    var canWrite := false;
    if perms.create {
      ghost var t0 := fs.tree;
      var created := fs.WriteFile(probe, "");
      if created {
        RemoveWritten(t0, probe, "");
        if perms.write {
          ghost var t1 := fs.tree;
          var _ := fs.WriteFile(probe, "test");
          RemoveWritten(t1, probe, "test");
          canWrite := true;
        }
        var _ := fs.RemoveFile(probe);
      }
    }
    if !canWrite {
      return Err(AccessError(path, true, false, CannotWrite));
    }
    return Ok(());
  }

  /** Removing a file just written removes whatever stood there before. */
  lemma RemoveWritten(t: Tree, p: Path, content: string)
    ensures RemoveFileSpec(t[p := File(content)], p) == RemoveFileSpec(t, p)
  {
  }

  /** The `no-access-error` event: the path as the caller wrote it, the two flags and the reason. */
  datatype AccessEvent = AccessEvent(pathText: string, canRead: bool, canWrite: bool, reason: Reason)

  function EventOf(pathText: string, e: AccessError): AccessEvent
  {
    AccessEvent(pathText, e.canRead, e.canWrite, e.reason)
  }

  /** Why a command refused the directory. */
  datatype NoAccess = NoAccess(error: AccessError) | NoReadAccess(error: AccessError)

  /** `ensure_directory_access`: any access error fails the command and is announced. */
  method EnsureDirectoryAccess(fs: Fs, path: Path, pathText: string, perms: Permissions)
    returns (r: Result<(), NoAccess>, event: Option<AccessEvent>)
    requires fs.Valid()
    modifies fs
    ensures fs.Valid() && fs.tree == AccessSpec(old(fs.tree), path, perms).tree
    ensures var c := AccessSpec(old(fs.tree), path, perms).result;
            && (r.Ok? <==> c.Ok?)
            && (c.Err? ==> r == Err(NoAccess(c.error)) && event == Some(EventOf(pathText, c.error)))
            && (c.Ok? ==> event == None)
  {
    var checked := CheckDirectoryAccess(fs, path, perms);
    if checked.Ok? {
      return Ok(()), None;
    }
    return Err(NoAccess(checked.error)), Some(EventOf(pathText, checked.error));
  }

  /**
   * `check_directory_access_with_warning`: only a directory that cannot
   * be read fails the command; one that can be read but not written is
   * announced and let through.
   */
  method CheckDirectoryAccessWithWarning(fs: Fs, path: Path, pathText: string, perms: Permissions)
    returns (r: Result<(), NoAccess>, event: Option<AccessEvent>)
    requires fs.Valid()
    modifies fs
    ensures fs.Valid() && fs.tree == AccessSpec(old(fs.tree), path, perms).tree
    ensures var c := AccessSpec(old(fs.tree), path, perms).result;
            && (r.Err? <==> c.Err? && !c.error.canRead)
            && (r.Err? ==> r.error == NoReadAccess(c.error))
            && (c.Err? ==> event == Some(AccessEvent(pathText, c.error.canRead, false, c.error.reason)))
            && (c.Ok? ==> event == None)
  {
    var checked := CheckDirectoryAccess(fs, path, perms);
    if checked.Ok? {
      return Ok(()), None;
    }
    if !checked.error.canRead {
      return Err(NoReadAccess(checked.error)), Some(AccessEvent(pathText, false, checked.error.canWrite, checked.error.reason));
    }
    if !checked.error.canWrite {
      event := Some(AccessEvent(pathText, true, false, checked.error.reason));
    } else {
      event := None;
    }
    return Ok(()), event;
  }

  /** A directory that can be listed passes the lenient check, whatever its write access. */
  lemma LenientAcceptsReadable(t: Tree, path: Path, perms: Permissions)
    requires IsDir(t, path) && perms.list
    ensures var c := AccessSpec(t, path, perms).result;
            c.Ok? || c.error.canRead
  {
  }
}
