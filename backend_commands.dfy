// The older command layer of the backend, `commands.rs`: one file with
// `update_mods`, the backup commands, `ignore_update` and
// `download_mod`, written before the commands were split into
// handler files. Its downloader's `download_mods` answers with the list
// of downloaded mods (no channel), it runs no access check, and its
// restore has no watcher. Its `update_mods` and `ignore_update` write
// the `.lastupdated` markers the update check reads first. The tasks it
// runs concurrently are run here one after another, in the order they
// are started. Where its bodies equal the handler files'
// (`check_backup`, `check_backups`, the Workshop batch commands), the
// handler modules model them.

module BackendCommands {
  import opened Common
  import opened FileSystem
  import opened ModQuery
  import opened WorkshopClient
  import opened Services
  import opened SteamCmdClient
  import opened CommandTypes
  import UpdateHandlers
  import DownloadHandlers
  import IgnoreHandlers
  import BackupHandlers

  const NothingDownloaded := "Failed to download any mods. Check SteamCMD logs for details."

  // ---------------------------------------------------------------
  // update_mods

  /** `mods_map`: each mod under its ID, a later mod replacing an earlier one. */
  function ById(mods: seq<BaseMod>): map<string, BaseMod>
  {
    if mods == [] then map[] else ById(mods[..|mods| - 1])[mods[|mods| - 1].modId := mods[|mods| - 1]]
  }

  /**
   * The IDs of the map are the IDs of the list, and each maps to the last
   * mod of the list with that ID.
   */
  lemma {:induction false} ByIdKeys(mods: seq<BaseMod>)
    ensures forall id :: id in ById(mods) <==> exists m :: m in mods && m.modId == id
    ensures forall id :: id in ById(mods) ==> ById(mods)[id].modId == id && ById(mods)[id] in mods
    ensures forall id :: id in ById(mods) ==>
      exists i :: 0 <= i < |mods| && mods[i] == ById(mods)[id] && forall j :: i < j < |mods| ==> mods[j].modId != id
  {
    if mods != [] {
      var init := mods[..|mods| - 1];
      var last := mods[|mods| - 1];
      ByIdKeys(init);
      assert mods == init + [last];
      forall id | id in ById(mods)
        ensures exists i :: 0 <= i < |mods| && mods[i] == ById(mods)[id] && forall j :: i < j < |mods| ==> mods[j].modId != id
      {
        if id == last.modId {
          assert mods[|mods| - 1] == ById(mods)[id];
        } else {
          var i :| 0 <= i < |init| && init[i] == ById(init)[id] && forall j :: i < j < |init| ==> init[j].modId != id;
          assert mods[i] == ById(mods)[id];
          assert forall j :: i < j < |mods| ==> mods[j].modId != id by {
            forall j | i < j < |mods| ensures mods[j].modId != id {
              if j < |init| { assert mods[j] == init[j]; }
            }
          }
        }
      }
    }
  }

  /** Where the scan for downloads without an original stops: the first such download, or the end. */
  function FirstOrphan(ds: seq<DownloadedMod>, byId: map<string, BaseMod>): (k: nat)
    ensures k <= |ds|
    ensures forall j :: 0 <= j < k ==> ds[j].modId in byId
    ensures k < |ds| ==> ds[k].modId !in byId
  {
    if ds == [] then 0
    else if ds[0].modId !in byId then 0
    else 1 + FirstOrphan(ds[1..], byId)
  }

  /** The install `update_mods` asks for one downloaded mod, with what it knows of the original. */
  function InstallFor(dm: DownloadedMod, original: BaseMod, downloadPath: Path, modsPath: Path, backupMods: bool,
                      backupDirectory: Option<Path>): DownloadHandlers.InstallRequest
  {
    DownloadHandlers.InstallRequest(dm.modId, dm.modPath, downloadPath, modsPath, original.folder, backupMods,
                                    backupDirectory, if original.details.Some? then Some(original.details.value.title) else None,
                                    None)
  }

  /** The installs, one per downloaded mod in download order. */
  function Installs(ds: seq<DownloadedMod>, byId: map<string, BaseMod>, downloadPath: Path, modsPath: Path,
                    backupMods: bool, backupDirectory: Option<Path>): seq<DownloadHandlers.InstallRequest>
    requires forall k :: 0 <= k < |ds| ==> ds[k].modId in byId
  {
    seq(|ds|, k requires 0 <= k < |ds| => InstallFor(ds[k], byId[ds[k].modId], downloadPath, modsPath, backupMods, backupDirectory))
  }

  /** The answers, in the order the installs were started: each original with its `updated` flag. */
  function Answers(ds: seq<DownloadedMod>, byId: map<string, BaseMod>, requests: seq<DownloadHandlers.InstallRequest>,
                   install: DownloadHandlers.InstallRequest -> Result<Path, string>): seq<BaseMod>
    requires |requests| == |ds| && forall k :: 0 <= k < |ds| ==> ds[k].modId in byId
  {
    seq(|ds|, k requires 0 <= k < |ds| => byId[ds[k].modId].(updated := Some(install(requests[k]).Ok?)))
  }

  /** What a command that installs mods answers, and the installs it asked for, in order. */
  datatype Update = Update(result: Result<seq<BaseMod>, string>, requests: seq<DownloadHandlers.InstallRequest>)

  /**
   * `update_mods`. `downloaded` is what downloading every mod's ID
   * gives, `downloadPath` the downloader's download folder, `install`
   * the installer's answer to a request.
   */
  function UpdateSpec(mods: seq<BaseMod>, backupMods: bool, backupDirectory: Option<Path>, downloadPath: Path,
                      downloaded: Result<seq<DownloadedMod>, string>,
                      install: DownloadHandlers.InstallRequest -> Result<Path, string>): Update
  {
    if mods == [] then Update(Err(UpdateHandlers.NoModsGiven), [])
    else
      var modsPath := GetModsPathFromModPath(mods[0].modPath);
      if modsPath.Err? then Update(Err(modsPath.error), [])
      else if downloaded.Err? then Update(Err(UpdateHandlers.DownloadFailed + downloaded.error), [])
      else if downloaded.value == [] then Update(Err(NothingDownloaded), [])
      else
        var ds := downloaded.value;
        var byId := ById(mods);
        var k := FirstOrphan(ds, byId);
        if k < |ds| then Update(Err(UpdateHandlers.OriginalMissing + ds[k].modId), [])
        else
          var requests := Installs(ds, byId, downloadPath, modsPath.value, backupMods, backupDirectory);
          Update(Ok(Answers(ds, byId, requests, install)), requests)
  }

  /** The update time recorded for an installed mod: its details' time, else now. */
  function RemoteTime(original: BaseMod, now: int): int
  {
    if original.details.Some? then original.details.value.timeUpdated else now
  }

  /**
   * The marker tasks of the answers whose install succeeded, in order:
   * each records the mod's update time in the folders of its ID in the
   * mods folder, the parent of `modPath`.
   */
  function MarkJobs(answers: seq<BaseMod>, modPath: Path, now: int): seq<IgnoreHandlers.Job>
  {
    if answers == [] then []
    else
      var a := answers[|answers| - 1];
      MarkJobs(answers[..|answers| - 1], modPath, now) +
      (if a.updated == Some(true) then [IgnoreHandlers.Job(a.modId, modPath, RemoteTime(a, now))] else [])
  }

  /** The marker tasks `update_mods` runs: none for a refused command. */
  function UpdateMarks(mods: seq<BaseMod>, backupMods: bool, backupDirectory: Option<Path>, downloadPath: Path,
                       downloaded: Result<seq<DownloadedMod>, string>,
                       install: DownloadHandlers.InstallRequest -> Result<Path, string>, now: int): seq<IgnoreHandlers.Job>
  {
    var u := UpdateSpec(mods, backupMods, backupDirectory, downloadPath, downloaded, install);
    if u.result.Ok? && mods != [] then MarkJobs(u.result.value, mods[0].modPath, now) else []
  }

  /**
   * `update_mods`: the install tasks are set up first, and a downloaded
   * mod without an original stops the command before any of them runs;
   * then the tasks run and every answer is collected. A task whose
   * install succeeded writes the mod's update time (`now` when it has
   * no details) as the `.lastupdated` marker of every folder of its ID
   * in the mods folder. The tasks run one after another in the model.
   */
  method UpdateMods(fs: Fs, mods: seq<BaseMod>, backupMods: bool, backupDirectory: Option<Path>, dl: Downloader,
                    downloaded: Result<seq<DownloadedMod>, string>,
                    install: DownloadHandlers.InstallRequest -> Result<Path, string>, now: int)
    returns (r: Result<seq<BaseMod>, string>, requests: seq<DownloadHandlers.InstallRequest>, ghost folders: seq<seq<Path>>)
    requires fs.Valid()
    modifies fs
    ensures fs.Valid()
    ensures Update(r, requests) == UpdateSpec(mods, backupMods, backupDirectory, dl.downloadPath, downloaded, install)
    ensures var jobs := UpdateMarks(mods, backupMods, backupDirectory, dl.downloadPath, downloaded, install, now);
            && |folders| == |jobs|
            && IgnoreHandlers.MarkedInTurn(old(fs.tree), jobs, folders, LastUpdatedFile)
            && fs.tree == IgnoreHandlers.MarkedTree(old(fs.tree), jobs, folders, LastUpdatedFile)
  {
    requests, folders := [], [];
    if mods == [] {
      return Err(UpdateHandlers.NoModsGiven), requests, folders;
    }
    var modsPath := GetModsPathFromModPath(mods[0].modPath);
    if modsPath.Err? {
      return Err(modsPath.error), requests, folders;
    }
    if downloaded.Err? {
      return Err(UpdateHandlers.DownloadFailed + downloaded.error), requests, folders;
    }
    var ds := downloaded.value;
    if ds == [] {
      return Err(NothingDownloaded), requests, folders;
    }
    var byId := ById(mods);
    var pending: seq<DownloadHandlers.InstallRequest> := [];
    for i := 0 to |ds|
      invariant forall j :: 0 <= j < i ==> ds[j].modId in byId
      invariant pending == Installs(ds[..i], byId, dl.downloadPath, modsPath.value, backupMods, backupDirectory)
    {
      if ds[i].modId !in byId {
        assert FirstOrphan(ds, byId) == i;
        return Err(UpdateHandlers.OriginalMissing + ds[i].modId), requests, folders;
      }
      pending := pending + [InstallFor(ds[i], byId[ds[i].modId], dl.downloadPath, modsPath.value, backupMods, backupDirectory)];
    }
    assert ds[..|ds|] == ds;
    var out;
    out, folders := RunInstalls(fs, ds, byId, pending, install, mods[0].modPath, now);
    return Ok(out), pending, folders;
  }

  /**
   * The install tasks of `update_mods`, in turn: each answers its
   * original with whether the install succeeded, and a successful one
   * writes the `.lastupdated` markers.
   */
  method RunInstalls(fs: Fs, ds: seq<DownloadedMod>, byId: map<string, BaseMod>, pending: seq<DownloadHandlers.InstallRequest>,
                     install: DownloadHandlers.InstallRequest -> Result<Path, string>, modPath: Path, now: int)
    returns (out: seq<BaseMod>, ghost folders: seq<seq<Path>>)
    requires fs.Valid() && |pending| == |ds| && forall k :: 0 <= k < |ds| ==> ds[k].modId in byId
    modifies fs
    ensures fs.Valid()
    ensures out == Answers(ds, byId, pending, install)
    ensures var jobs := MarkJobs(out, modPath, now);
            && |folders| == |jobs|
            && IgnoreHandlers.MarkedInTurn(old(fs.tree), jobs, folders, LastUpdatedFile)
            && fs.tree == IgnoreHandlers.MarkedTree(old(fs.tree), jobs, folders, LastUpdatedFile)
  {
    ghost var t0 := fs.tree;
    out, folders := [], [];
    var jobs: seq<IgnoreHandlers.Job> := [];
    for i := 0 to |ds|
      invariant fs.Valid()
      invariant out == Answers(ds[..i], byId, pending[..i], install)
      invariant jobs == MarkJobs(out, modPath, now) && |folders| == |jobs|
      invariant IgnoreHandlers.MarkedInTurn(t0, jobs, folders, LastUpdatedFile)
      invariant fs.tree == IgnoreHandlers.MarkedTree(t0, jobs, folders, LastUpdatedFile)
    {
      var outcome := install(pending[i]);
      var answer := byId[ds[i].modId].(updated := Some(outcome.Ok?));
      assert (out + [answer])[..|out|] == out;
      if outcome.Ok? {
        var job := IgnoreHandlers.Job(answer.modId, modPath, RemoteTime(answer, now));
        ghost var chosen := IgnoreHandlers.AppendJob(fs, jobs, job, LastUpdatedFile, t0, folders);
        jobs, folders := jobs + [job], folders + [chosen];
      }
      out := out + [answer];
    }
    assert ds[..|ds|] == ds && pending[..|ds|] == pending;
  }

  /**
   * The marker tasks are the answers whose install succeeded, in order,
   * each recording that mod's update time.
   */
  lemma {:induction false} MarkJobsAreSuccesses(answers: seq<BaseMod>, modPath: Path, now: int)
    ensures forall j :: j in MarkJobs(answers, modPath, now) <==>
              exists k :: 0 <= k < |answers| && answers[k].updated == Some(true) &&
                          j == IgnoreHandlers.Job(answers[k].modId, modPath, RemoteTime(answers[k], now))
  {
    if answers != [] {
      var init := answers[..|answers| - 1];
      MarkJobsAreSuccesses(init, modPath, now);
      forall k | 0 <= k < |init| ensures init[k] == answers[k] { }
    }
  }

  /**
   * The `.lastupdated` tasks of `update_mods` are exactly the downloads
   * whose install succeeded, each recording the update time of the
   * given mod it was installed for; a refused command writes none.
   */
  lemma UpdateMarksAreSuccesses(mods: seq<BaseMod>, backupMods: bool, backupDirectory: Option<Path>, downloadPath: Path,
                                downloaded: Result<seq<DownloadedMod>, string>,
                                install: DownloadHandlers.InstallRequest -> Result<Path, string>, now: int)
    ensures var u := UpdateSpec(mods, backupMods, backupDirectory, downloadPath, downloaded, install);
            var jobs := UpdateMarks(mods, backupMods, backupDirectory, downloadPath, downloaded, install, now);
            && (u.result.Err? ==> jobs == [])
            && (u.result.Ok? ==>
                  && mods != [] && downloaded.Ok? && |u.result.value| == |downloaded.value| == |u.requests|
                  && forall j :: j in jobs <==>
                       exists k :: 0 <= k < |u.requests| && install(u.requests[k]).Ok? &&
                                   j == IgnoreHandlers.Job(downloaded.value[k].modId, mods[0].modPath,
                                                           RemoteTime(u.result.value[k], now)))
  {
    var u := UpdateSpec(mods, backupMods, backupDirectory, downloadPath, downloaded, install);
    UpdateAnswerMeaning(mods, backupMods, backupDirectory, downloadPath, downloaded, install);
    if u.result.Ok? {
      MarkJobsAreSuccesses(u.result.value, mods[0].modPath, now);
    }
  }

  /**
   * What `update_mods` answers: a refused command installs nothing; a
   * command goes ahead exactly when every downloaded mod was one of the
   * given mods; it then answers once per downloaded mod, in order, with
   * a given mod of that ID whose `updated` flag tells whether its
   * install succeeded, and the install used that mod's folder name.
   */
  lemma UpdateAnswerMeaning(mods: seq<BaseMod>, backupMods: bool, backupDirectory: Option<Path>, downloadPath: Path,
                            downloaded: Result<seq<DownloadedMod>, string>,
                            install: DownloadHandlers.InstallRequest -> Result<Path, string>)
    ensures var u := UpdateSpec(mods, backupMods, backupDirectory, downloadPath, downloaded, install);
            && (u.result.Err? ==> u.requests == [])
            && (mods != [] && mods[0].modPath != [] && downloaded.Ok? && downloaded.value != [] ==>
                  (u.result.Ok? <==> forall k :: 0 <= k < |downloaded.value| ==>
                                       exists m :: m in mods && m.modId == downloaded.value[k].modId))
            && (u.result.Ok? ==>
                  && downloaded.Ok? && |u.result.value| == |downloaded.value| == |u.requests|
                  && forall k :: 0 <= k < |downloaded.value| ==>
                       && u.requests[k].modId == downloaded.value[k].modId
                       && u.requests[k].modPath == downloaded.value[k].modPath
                       && u.result.value[k].modId == downloaded.value[k].modId
                       && u.result.value[k].updated == Some(install(u.requests[k]).Ok?)
                       && u.result.value[k].(updated := None) in AsGiven(mods)
                       && u.requests[k].existingFolderName == u.result.value[k].folder)
  {
    ByIdKeys(mods);
    var u := UpdateSpec(mods, backupMods, backupDirectory, downloadPath, downloaded, install);
    if mods != [] && mods[0].modPath != [] && downloaded.Ok? && downloaded.value != [] {
      var ds := downloaded.value;
      var byId := ById(mods);
      var k := FirstOrphan(ds, byId);
      if k < |ds| {
        assert !exists m :: m in mods && m.modId == ds[k].modId;
      }
      if u.result.Ok? {
        forall j | 0 <= j < |ds|
          ensures u.result.value[j].(updated := None) in AsGiven(mods)
        {
          var m := byId[ds[j].modId];
          assert u.result.value[j].(updated := None) == m.(updated := None);
          AsGivenHas(mods, m);
        }
      }
    }
  }

  /** The given mods with their `updated` flags cleared. */
  function AsGiven(mods: seq<BaseMod>): seq<BaseMod>
  {
    seq(|mods|, k requires 0 <= k < |mods| => mods[k].(updated := None))
  }

  lemma AsGivenHas(mods: seq<BaseMod>, m: BaseMod)
    requires m in mods
    ensures m.(updated := None) in AsGiven(mods)
  {
    var k :| 0 <= k < |mods| && mods[k] == m;
    assert AsGiven(mods)[k] == m.(updated := None);
  }

  // ---------------------------------------------------------------
  // restore_backup, restore_backups

  /** What a restore leaves: the tree and the answer. */
  datatype Done = Done(tree: Tree, result: Result<Path, CommandError>)

  /**
   * The older `restore_backup`: the path guards, then the backup must
   * exist, then the mod folder is replaced by the backup and the backup
   * deleted, as in the handler's restore.
   */
  function RestoreSpec(t: Tree, modPath: Path, backupDir: Path): Done
  {
    var guards := BackupHandlers.PathGuards(modPath, backupDir);
    if guards.Err? then Done(t, Err(Message(guards.error)))
    else if guards.value !in t then Done(t, Err(Message(BackupHandlers.BackupNotFound)))
    else
      var s := BackupHandlers.RestoreSteps(t, modPath, guards.value);
      Done(s.tree, s.result)
  }

  /** `restore_backup` of the older layer (no mods-folder check, no watcher). */
  method RestoreBackup(fs: Fs, modPath: Path, backupDir: Path) returns (r: Result<Path, CommandError>)
    requires fs.Valid()
    modifies fs
    ensures fs.Valid()
    ensures Done(fs.tree, r) == RestoreSpec(old(fs.tree), modPath, backupDir)
  {
    var guards := BackupHandlers.PathGuards(modPath, backupDir);
    if guards.Err? {
      return Err(Message(guards.error));
    }
    var bp := guards.value;
    if bp !in fs.tree {
      return Err(Message(BackupHandlers.BackupNotFound));
    }
    var steps;
    r, steps := BackupHandlers.RestoreFromBackup(fs, modPath, bp);
  }

  /**
   * A refused restore changes nothing: paths that are not separate are
   * refused with the first guard's message, a missing backup with "not
   * found". A restore that fails later leaves the backup as it was. A
   * restore that succeeds leaves the mod folder holding exactly what the
   * backup held, and the backup gone.
   */
  lemma RestoreOutcome(t: Tree, modPath: Path, backupDir: Path)
    requires WellFormed(t)
    ensures var r := RestoreSpec(t, modPath, backupDir);
            && (!Separate(modPath, backupDir) ==> r == Done(t, Err(Message(BackupHandlers.NotSeparate))))
            && (modPath != [] && Separate(modPath, backupDir) ==>
                  var bp := BackupHandlers.BackupPathFor(backupDir, modPath);
                  && (bp !in t ==> r == Done(t, Err(Message(BackupHandlers.BackupNotFound))))
                  && (r.result.Err? ==> SameBelow(r.tree, t, bp))
                  && (r.result.Ok? ==> r.result.value == modPath && Mirrors(r.tree, modPath, t, bp) && bp !in r.tree))
  {
    BackupHandlers.OnlyTheFirstGuardRefuses(modPath, backupDir);
    if modPath != [] && Separate(modPath, backupDir) {
      var bp := BackupHandlers.BackupPathFor(backupDir, modPath);
      if bp in t {
        BackupHandlers.StepsReplaceModFolder(t, t, modPath, bp);
        FailureKeepsBackup(t, modPath, bp);
      }
    }
  }

  /** The steps of a restore that fails leave the backup as it was. */
  lemma FailureKeepsBackup(t: Tree, modPath: Path, bp: Path)
    requires WellFormed(t) && modPath != [] && Separate(modPath, bp)
    ensures var s := BackupHandlers.RestoreSteps(t, modPath, bp);
            s.result.Err? ==> SameBelow(s.tree, t, bp)
  {
    var t2 := if modPath in t then RemoveTreeSpec(t, modPath) else t;
    BackupHandlers.ModFolderCleared(t, t, modPath, bp);
    CopyChangesAround(t2, bp, modPath);
    AroundKeepsSeparate(t2, CopySpec(t2, bp, modPath), modPath, bp);
    SameBelowSymmetric(t2, CopySpec(t2, bp, modPath), bp);
    SameBelowTransitive(CopySpec(t2, bp, modPath), t2, t, bp);
  }

  /**
   * The older restore does what the handler's does once the mods
   * folder has passed the access check without a change to the tree.
   */
  lemma AgreesWithHandler(t: Tree, modPath: Path, backupDir: Path, perms: AccessCheck.Permissions)
    requires modPath != []
    requires var c := AccessCheck.AccessSpec(t, modPath[..|modPath| - 1], perms); c.result.Ok? && c.tree == t
    ensures var legacy := RestoreSpec(t, modPath, backupDir);
            var handler := BackupHandlers.RestoreSpec(t, modPath, backupDir, perms);
            legacy.tree == handler.tree && legacy.result == handler.result
  {
  }

  /** The restores in turn, `trees[i]` the tree the i-th starts on and `outcomes[i]` its answer. */
  ghost predicate RestoredInTurn(trees: seq<Tree>, modPaths: seq<Path>, outcomes: seq<Result<Path, CommandError>>,
                                 backupDir: Path)
  {
    && |trees| == |modPaths| + 1 && |outcomes| == |modPaths|
    && (|modPaths| > 0 ==>
          var n := |modPaths| - 1;
          var r := RestoreSpec(trees[n], modPaths[n], backupDir);
          && RestoredInTurn(trees[..n + 1], modPaths[..n], outcomes[..n], backupDir)
          && r.tree == trees[n + 1] && r.result == outcomes[n])
  }

  /** Each restore in the chain is the one its mod path calls for, on the tree the previous one left. */
  lemma {:induction false} RestoredInTurnAt(trees: seq<Tree>, modPaths: seq<Path>, outcomes: seq<Result<Path, CommandError>>,
                                            backupDir: Path, i: nat)
    requires RestoredInTurn(trees, modPaths, outcomes, backupDir) && i < |modPaths|
    ensures RestoreSpec(trees[i], modPaths[i], backupDir) == Done(trees[i + 1], outcomes[i])
  {
    var n := |modPaths| - 1;
    if i < n {
      RestoredInTurnAt(trees[..n + 1], modPaths[..n], outcomes[..n], backupDir, i);
    }
  }

  /**
   * `restore_backups` of the older layer: an empty list answers an
   * empty map; otherwise each mod path is restored (one after the other
   * in the model) and the answers are keyed by mod path.
   */
  method RestoreBackups(fs: Fs, modPaths: seq<Path>, backupDir: Path)
    returns (m: map<Path, BackupHandlers.RestoreEntry>, outcomes: seq<Result<Path, CommandError>>, ghost trees: seq<Tree>)
    requires fs.Valid()
    modifies fs
    ensures fs.Valid()
    ensures RestoredInTurn(trees, modPaths, outcomes, backupDir)
    ensures trees[0] == old(fs.tree) && trees[|modPaths|] == fs.tree
    ensures m == BackupHandlers.ResultMap(modPaths, outcomes)
  {
    m, outcomes, trees := map[], [], [fs.tree];
    if |modPaths| == 0 {
      return;
    }
    for i := 0 to |modPaths|
      invariant fs.Valid()
      invariant RestoredInTurn(trees, modPaths[..i], outcomes, backupDir)
      invariant trees[0] == old(fs.tree) && trees[i] == fs.tree
      invariant m == BackupHandlers.ResultMap(modPaths[..i], outcomes)
    {
      var r := RestoreBackup(fs, modPaths[i], backupDir);
      assert modPaths[..i + 1][..i] == modPaths[..i];
      assert (outcomes + [r])[..i] == outcomes;
      assert (trees + [fs.tree])[..i + 1] == trees;
      m := m[modPaths[i] := BackupHandlers.EntryOf(r)];
      outcomes := outcomes + [r];
      trees := trees + [fs.tree];
    }
    assert modPaths[..|modPaths|] == modPaths;
  }

  // ---------------------------------------------------------------
  // ignore_update

  /** The mods with Workshop details, in order. */
  function Detailed(mods: seq<BaseMod>): seq<BaseMod>
  {
    if mods == [] then []
    else Detailed(mods[..|mods| - 1]) + (if mods[|mods| - 1].details.Some? then [mods[|mods| - 1]] else [])
  }

  /** The mods without Workshop details, in order. */
  function Plain(mods: seq<BaseMod>): seq<BaseMod>
  {
    if mods == [] then []
    else Plain(mods[..|mods| - 1]) + (if mods[|mods| - 1].details.None? then [mods[|mods| - 1]] else [])
  }

  /** The IDs of the mods, in order. */
  function IdsOf(mods: seq<BaseMod>): seq<string>
  {
    seq(|mods|, k requires 0 <= k < |mods| => mods[k].modId)
  }

  /** The time recorded for a mod: its details' update time, else the fetched one, else now. */
  function TimeFor(m: BaseMod, fetched: map<string, int>, now: int): int
  {
    if m.details.Some? then m.details.value.timeUpdated
    else if m.modId in fetched then fetched[m.modId]
    else now
  }

  /** One task per mod, in the given order, recording the mod's time in the folders of its ID. */
  function Tasks(order: seq<BaseMod>, fetched: map<string, int>, now: int): (jobs: seq<IgnoreHandlers.Job>)
    ensures |jobs| == |order|
  {
    seq(|order|, k requires 0 <= k < |order| => IgnoreHandlers.Job(order[k].modId, order[k].modPath, TimeFor(order[k], fetched, now)))
  }

  /**
   * The tasks `ignore_update` starts: the mods with details first, then
   * the others, whose times come from the Workshop lookups in batches of
   * 50 (each ID on its own when a batch fails, now when that fails too).
   */
  function IgnoreTasks(mods: seq<BaseMod>, query: BatchQuery, single: string -> Result<Details, SteamError>, now: int)
    : seq<IgnoreHandlers.Job>
  {
    var ids := IdsOf(Plain(mods));
    var fetched := if ids == [] then map[] else TimesUpTo(ids, NumBatches(|ids|), query, single, now);
    Tasks(Detailed(mods) + Plain(mods), fetched, now)
  }

  /**
   * `ignore_update` of the older layer: the mods are split by whether
   * they carry details, the missing times are looked up, and a task for
   * each mod (those with details first) writes its time as the
   * `.lastupdated` marker of every folder of its ID beside the mod; every
   * task is reported as ignored, whatever happened to its files. The
   * tasks run one after another in the model. A mod path without a
   * parent fails only its own task ("Cannot get mods path"), which the
   * report does not show.
   */
  method IgnoreUpdate(fs: Fs, mods: seq<BaseMod>, query: BatchQuery, single: string -> Result<Details, SteamError>, now: int)
    returns (r: seq<IgnoreHandlers.IgnoredEntry>, ghost folders: seq<seq<Path>>)
    requires fs.Valid()
    modifies fs
    ensures fs.Valid()
    ensures mods == [] ==> r == [] && fs.tree == old(fs.tree)
    ensures var jobs := IgnoreTasks(mods, query, single, now);
            && r == IgnoreHandlers.IgnoredReport(jobs) && |folders| == |jobs|
            && IgnoreHandlers.MarkedInTurn(old(fs.tree), jobs, folders, LastUpdatedFile)
            && fs.tree == IgnoreHandlers.MarkedTree(old(fs.tree), jobs, folders, LastUpdatedFile)
  {
    if mods == [] {
      return [], [];
    }
    var withDetails: seq<BaseMod> := [];
    var withoutDetails: seq<BaseMod> := [];
    for i := 0 to |mods|
      invariant withDetails == Detailed(mods[..i]) && withoutDetails == Plain(mods[..i])
    {
      assert mods[..i + 1][..i] == mods[..i];
      if mods[i].details.Some? {
        withDetails := withDetails + [mods[i]];
      } else {
        withoutDetails := withoutDetails + [mods[i]];
      }
    }
    assert mods[..|mods|] == mods;
    var ids := IdsOf(withoutDetails);
    var fetched: map<string, int> := map[];
    if ids != [] {
      fetched := FetchModTimesUpdated(ids, query, single, now);
    }
    r, folders := IgnoreHandlers.RunIgnoreJobs(fs, Tasks(withDetails + withoutDetails, fetched, now), LastUpdatedFile);
  }

  /** Dropping the last mod drops it from exactly one of the two groups. */
  lemma TaskModsStep(mods: seq<BaseMod>)
    requires mods != []
    ensures multiset(Detailed(mods)) + multiset(Plain(mods))
         == multiset(Detailed(mods[..|mods| - 1])) + multiset(Plain(mods[..|mods| - 1])) + multiset{mods[|mods| - 1]}
  {
  }

  /** The two groups together hold the given mods, each as often as it was given. */
  lemma {:induction false} TaskModsAreInputMods(mods: seq<BaseMod>)
    ensures multiset(Detailed(mods) + Plain(mods)) == multiset(mods)
  {
    if mods != [] {
      var init := mods[..|mods| - 1];
      TaskModsAreInputMods(init);
      TaskModsStep(mods);
      Regroup(Detailed(mods), Plain(mods), Detailed(init), Plain(init), init, mods[|mods| - 1]);
      MultisetLast(mods);
    }
  }

  /** Adding one element to the groups of a prefix adds it to the prefix. */
  lemma Regroup<T>(d: seq<T>, p: seq<T>, d0: seq<T>, p0: seq<T>, init: seq<T>, x: T)
    requires multiset(d) + multiset(p) == multiset(d0) + multiset(p0) + multiset{x}
    requires multiset(d0 + p0) == multiset(init)
    ensures multiset(d + p) == multiset(init) + multiset{x}
  {
  }


  /** The IDs a report names, in its order. */
  function ReportedIds(report: seq<IgnoreHandlers.IgnoredEntry>): seq<string>
  {
    seq(|report|, k requires 0 <= k < |report| => report[k].modId)
  }

  /**
   * Every mod gets one task and one report entry: the tasks are the
   * given mods (those with details first), each recording its own time,
   * and the report names the tasks' mods in order.
   */
  lemma IgnoredCoversInput(mods: seq<BaseMod>, query: BatchQuery, single: string -> Result<Details, SteamError>, now: int)
    ensures var jobs := IgnoreTasks(mods, query, single, now);
            var report := IgnoreHandlers.IgnoredReport(jobs);
            && |report| == |jobs| == |mods|
            && ReportedIds(report) == IdsOf(Detailed(mods) + Plain(mods))
            && multiset(Detailed(mods) + Plain(mods)) == multiset(mods)
            && (forall k :: 0 <= k < |jobs| ==>
                  jobs[k].modId == (Detailed(mods) + Plain(mods))[k].modId
                  && jobs[k].modPath == (Detailed(mods) + Plain(mods))[k].modPath)
  {
    var order := Detailed(mods) + Plain(mods);
    TaskModsAreInputMods(mods);
    assert |order| == |multiset(order)|;
  }

  /**
   * Where a task's time is a positive `i64`, the update check reads it
   * back from every folder the last task chose, whatever the file times
   * say: the `.lastupdated` marker is what `get_mod_last_updated_time`
   * consults first.
   */
  lemma LastTaskReadsBack(t0: Tree, jobs: seq<IgnoreHandlers.Job>, folders: seq<seq<Path>>, f: Path, mtime: MTime, now: int)
    requires WellFormed(t0) && |folders| == |jobs| && jobs != []
    requires IgnoreHandlers.MarkedInTurn(t0, jobs, folders, LastUpdatedFile)
    requires 0 < jobs[|jobs| - 1].time <= I64Max
    requires var n := |jobs| - 1;
             f in folders[n] && !IsDir(IgnoreHandlers.MarkedTree(t0, jobs[..n], folders[..n], LastUpdatedFile), AboutFile(f, LastUpdatedFile))
    ensures var w := IgnoreHandlers.MarkedTree(t0, jobs, folders, LastUpdatedFile);
            LastUpdatedSpec(w, f, mtime, now) == Read(w, Ok(jobs[|jobs| - 1].time))
  {
    IgnoreHandlers.LastTaskMarks(t0, jobs, folders, LastUpdatedFile, f);
    TimestampRoundTrip(jobs[|jobs| - 1].time);
  }

  // ---------------------------------------------------------------
  // download_mod

  /** What the older `download_mod` leaves once the ID is taken: the tree, the answer and the install asked for. */
  datatype Fetched = Fetched(tree: Tree, result: Result<DownloadedMod, string>, request: Option<DownloadHandlers.InstallRequest>)

  /**
   * From the download on: a failed or empty download fails the command,
   * the first downloaded mod is handed to the installer, and a
   * successful install gets its `.lastupdated` marker.
   */
  function FetchSpec(t: Tree, downloadPath: Path, modsPath: Path, started: Result<seq<DownloadedMod>, string>,
                     title: Option<string>, time: int, install: DownloadHandlers.InstallRequest -> Result<Path, string>)
    : Fetched
  {
    if started.Err? then Fetched(t, Err(DownloadHandlers.StartFailed + started.error), None)
    else if started.value == [] then Fetched(t, Err(DownloadHandlers.NoFolderCreated), None)
    else
      var m := started.value[0];
      var request := DownloadHandlers.InstallRequest(m.modId, m.modPath, downloadPath, modsPath, None, false, None, title, None);
      var installed := install(request);
      if installed.Err? then Fetched(t, Err(DownloadHandlers.InstallFailed + installed.error), Some(request))
      else Fetched(MarkerWriteSpec(t, installed.value, LastUpdatedFile, time),
                   Ok(DownloadedMod(m.modId, installed.value, m.folder)), Some(request))
  }

  /**
   * The older `download_mod` protocol, shared by both older layers: an
   * ID already in flight is refused; otherwise it is taken, the mod is
   * downloaded and installed, and the ID is released on every way out.
   */
  method Fetch(fs: Fs, dl: Downloader, modId: string, downloadPath: Path, modsPath: Path,
               started: Result<seq<DownloadedMod>, string>, title: Option<string>, time: int,
               install: DownloadHandlers.InstallRequest -> Result<Path, string>)
    returns (r: Result<DownloadedMod, string>, request: Option<DownloadHandlers.InstallRequest>,
             ghost steps: seq<DownloadHandlers.RegistryStep>)
    requires fs.Valid()
    modifies fs, dl
    ensures fs.Valid()
    ensures dl.activeDownloads == old(dl.activeDownloads)
    ensures dl.downloadPath == old(dl.downloadPath) && dl.steamcmdPath == old(dl.steamcmdPath)
    ensures modId in old(dl.activeDownloads) ==>
              r == Err(DownloadHandlers.AlreadyDownloading) && request == None && steps == [] && fs.tree == old(fs.tree)
    ensures modId !in old(dl.activeDownloads) ==>
              && steps == [DownloadHandlers.Begin(modId), DownloadHandlers.Release(modId)]
              && Fetched(fs.tree, r, request) == FetchSpec(old(fs.tree), downloadPath, modsPath, started, title, time, install)
  {
    steps := [];
    request := None;
    if dl.IsDownloading(modId) {
      return Err(DownloadHandlers.AlreadyDownloading), request, steps;
    }
    DownloadHandlers.AddThenRemove(dl.activeDownloads, modId);
    dl.MarkDownloading(modId);
    steps := [DownloadHandlers.Begin(modId)];
    if started.Err? {
      dl.MarkDownloaded(modId);
      return Err(DownloadHandlers.StartFailed + started.error), request, steps + [DownloadHandlers.Release(modId)];
    }
    if started.value == [] {
      dl.MarkDownloaded(modId);
      return Err(DownloadHandlers.NoFolderCreated), request, steps + [DownloadHandlers.Release(modId)];
    }
    var m := started.value[0];
    request := Some(DownloadHandlers.InstallRequest(m.modId, m.modPath, downloadPath, modsPath, None, false, None, title, None));
    var installed := install(request.value);
    if installed.Err? {
      dl.MarkDownloaded(modId);
      return Err(DownloadHandlers.InstallFailed + installed.error), request, steps + [DownloadHandlers.Release(modId)];
    }
    WriteLastUpdatedFile(fs, installed.value, time);
    dl.MarkDownloaded(modId);
    r := Ok(DownloadedMod(m.modId, installed.value, m.folder));
    steps := steps + [DownloadHandlers.Release(modId)];
  }

  /**
   * `download_mod` of the older backend layer: no access check; the
   * title and update time come from the batch lookup's last answer, else
   * the single lookup, else no title and now.
   */
  method DownloadMod(fs: Fs, dl: Downloader, modId: string, modsPath: Path, started: Result<seq<DownloadedMod>, string>,
                     batch: Result<seq<Details>, string>, single: Result<Details, SteamError>, now: int,
                     install: DownloadHandlers.InstallRequest -> Result<Path, string>)
    returns (r: Result<DownloadedMod, string>, request: Option<DownloadHandlers.InstallRequest>,
             ghost steps: seq<DownloadHandlers.RegistryStep>)
    requires fs.Valid()
    modifies fs, dl
    ensures fs.Valid()
    ensures dl.activeDownloads == old(dl.activeDownloads)
    ensures dl.downloadPath == old(dl.downloadPath) && dl.steamcmdPath == old(dl.steamcmdPath)
    ensures modId in old(dl.activeDownloads) ==>
              r == Err(DownloadHandlers.AlreadyDownloading) && request == None && steps == [] && fs.tree == old(fs.tree)
    ensures modId !in old(dl.activeDownloads) ==>
              var looked := DownloadHandlers.TitleAndTime(batch, single, now);
              && steps == [DownloadHandlers.Begin(modId), DownloadHandlers.Release(modId)]
              && Fetched(fs.tree, r, request) == FetchSpec(old(fs.tree), old(dl.downloadPath), modsPath, started,
                                                           looked.0, looked.1, install)
  {
    var looked := DownloadHandlers.TitleAndTime(batch, single, now);
    r, request, steps := Fetch(fs, dl, modId, dl.downloadPath, modsPath, started, looked.0, looked.1, install);
  }

  /**
   * What the download answers: a failure before the install changes
   * nothing and asks for no install; an install is asked for the first
   * downloaded mod only; a failed install changes nothing; a successful
   * one answers the installed path and writes the update time into its
   * `.lastupdated` marker when the `About` folder can be made.
   */
  lemma FetchOutcome(t: Tree, downloadPath: Path, modsPath: Path, started: Result<seq<DownloadedMod>, string>,
                     title: Option<string>, time: int, install: DownloadHandlers.InstallRequest -> Result<Path, string>)
    ensures var f := FetchSpec(t, downloadPath, modsPath, started, title, time, install);
            && (f.request.None? <==> started.Err? || started.value == [])
            && (f.request.Some? ==> f.request.value.modId == started.value[0].modId
                                    && f.request.value.modPath == started.value[0].modPath
                                    && f.request.value.modsPath == modsPath)
            && (f.result.Err? ==> f.tree == t)
            && (f.result.Ok? ==>
                  && f.request.Some? && install(f.request.value) == Ok(f.result.value.modPath)
                  && f.result.value.modId == started.value[0].modId
                  && (CanCreateDirAll(t, f.result.value.modPath + ["About"])
                      && !IsDir(t, f.result.value.modPath + ["About", LastUpdatedFile]) ==>
                        IsFile(f.tree, AboutFile(f.result.value.modPath, LastUpdatedFile))
                        && f.tree[AboutFile(f.result.value.modPath, LastUpdatedFile)].content == IntToString(time)))
  {
    var f := FetchSpec(t, downloadPath, modsPath, started, title, time, install);
    if f.result.Ok? {
      var p := f.result.value.modPath;
      if CanCreateDirAll(t, p + ["About"]) && !IsDir(t, p + ["About", LastUpdatedFile]) {
        MarkerWritten(t, p, LastUpdatedFile, time);
      }
    }
  }
}
