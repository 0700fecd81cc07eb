// The desktop front end's own command file (`src-tauri/src/commands.rs`).
// Its `update_mods` installs the downloaded mods one after another,
// writing each installed mod's `.lastupdated` markers, and stops at the
// first failure; its `ignore_update` writes the markers mod by mod; its
// Workshop lookups ask the shared client directly; its `download_mod`
// follows the older protocol with a fixed download folder and no title.
// Its
// `check_backup` and `restore_backup` have the bodies of the backend's
// and share their models (`BackupHandlers.CheckBackup`,
// `BackendCommands.RestoreBackup`).

module FrontendCommands {
  import opened Common
  import opened FileSystem
  import opened ModQuery
  import opened WorkshopClient
  import opened Services
  import opened SteamCmdClient
  import UpdateHandlers
  import DownloadHandlers
  import BackendCommands
  import IgnoreHandlers
  import WorkshopHandlers

  /** Where SteamCMD leaves RimWorld's Workshop downloads, relative to the working folder. */
  const DownloadFolder: Path := ["steamcmd", "steamapps", "workshop", "content", "294100"]

  /** Followed by the mod's ID, `": "` and the installer's message. */
  const InstallFailedFor := "Failed to update mod "

  // ---------------------------------------------------------------
  // update_mods

  /** `find`: the index of the first mod with this ID, or the length when there is none. */
  function FindIndex(mods: seq<BaseMod>, id: string): (k: nat)
    ensures k <= |mods|
    ensures forall j :: 0 <= j < k ==> mods[j].modId != id
    ensures k < |mods| ==> mods[k].modId == id
  {
    if mods == [] then 0
    else if mods[0].modId == id then 0
    else 1 + FindIndex(mods[1..], id)
  }

  /** The install asked for one downloaded mod: the original's folder name, no title. */
  function RequestFor(dm: DownloadedMod, original: BaseMod, modsPath: Path, backupMods: bool,
                      backupDirectory: Option<Path>): DownloadHandlers.InstallRequest
  {
    DownloadHandlers.InstallRequest(dm.modId, dm.modPath, DownloadFolder, modsPath, original.folder, backupMods,
                                    backupDirectory, None, None)
  }

  /** The answer for an installed mod: the original under its new path and folder, marked updated. */
  function Installed(original: BaseMod, path: Path): BaseMod
  {
    BaseMod(original.modId, path, FileName(path), original.details, Some(true))
  }

  /** The installs done before the rest, put in front of what the rest does. */
  function Before(done: seq<BaseMod>, requests: seq<DownloadHandlers.InstallRequest>, rest: BackendCommands.Update)
    : BackendCommands.Update
  {
    BackendCommands.Update(if rest.result.Ok? then Ok(done + rest.result.value) else rest.result, requests + rest.requests)
  }

  /**
   * The loop of `update_mods`: each downloaded mod in turn is matched
   * with the first given mod of its ID and installed; a download without
   * an original, or a failed install, ends the command with an error.
   */
  function InstallInTurn(ds: seq<DownloadedMod>, mods: seq<BaseMod>, modsPath: Path, backupMods: bool,
                         backupDirectory: Option<Path>, install: DownloadHandlers.InstallRequest -> Result<Path, string>)
    : BackendCommands.Update
  {
    if ds == [] then BackendCommands.Update(Ok([]), [])
    else
      var k := FindIndex(mods, ds[0].modId);
      if k == |mods| then BackendCommands.Update(Err(UpdateHandlers.OriginalMissing + ds[0].modId), [])
      else
        var request := RequestFor(ds[0], mods[k], modsPath, backupMods, backupDirectory);
        var installed := install(request);
        if installed.Err? then
          BackendCommands.Update(Err(InstallFailedFor + ds[0].modId + ": " + installed.error), [request])
        else
          Before([Installed(mods[k], installed.value)], [request],
                 InstallInTurn(ds[1..], mods, modsPath, backupMods, backupDirectory, install))
  }

  /**
   * `update_mods`. `downloaded` is what downloading every mod's ID
   * gives and `install` the installer's answer to a request.
   */
  function UpdateSpec(mods: seq<BaseMod>, backupMods: bool, backupDirectory: Option<Path>,
                      downloaded: Result<seq<DownloadedMod>, string>,
                      install: DownloadHandlers.InstallRequest -> Result<Path, string>): BackendCommands.Update
  {
    if mods == [] then BackendCommands.Update(Err(UpdateHandlers.NoModsGiven), [])
    else
      var modsPath := GetModsPathFromModPath(mods[0].modPath);
      if modsPath.Err? then BackendCommands.Update(Err(modsPath.error), [])
      else if downloaded.Err? then BackendCommands.Update(Err(UpdateHandlers.DownloadFailed + downloaded.error), [])
      else if downloaded.value == [] then BackendCommands.Update(Err(BackendCommands.NothingDownloaded), [])
      else InstallInTurn(downloaded.value, mods, modsPath.value, backupMods, backupDirectory, install)
  }

  /** One more install that succeeded moves from the rest to the part done. */
  lemma BeforeStep(done: seq<BaseMod>, requests: seq<DownloadHandlers.InstallRequest>, answer: BaseMod,
                   request: DownloadHandlers.InstallRequest, rest: BackendCommands.Update)
    ensures Before(done, requests, Before([answer], [request], rest)) == Before(done + [answer], requests + [request], rest)
  {
    assert requests + ([request] + rest.requests) == requests + [request] + rest.requests;
    if rest.result.Ok? {
      assert done + ([answer] + rest.result.value) == done + [answer] + rest.result.value;
    }
  }

  /**
   * The marker tasks of the loop: one after each install that
   * succeeded, recording the original's update time (`now` when it has
   * no details) in the folders of its ID in the mods folder, the parent
   * of `modPath`; none after the install that ends the command.
   */
  function InTurnMarks(ds: seq<DownloadedMod>, mods: seq<BaseMod>, modsPath: Path, backupMods: bool,
                       backupDirectory: Option<Path>, install: DownloadHandlers.InstallRequest -> Result<Path, string>,
                       modPath: Path, now: int): seq<IgnoreHandlers.Job>
  {
    if ds == [] then []
    else
      var k := FindIndex(mods, ds[0].modId);
      if k == |mods| || install(RequestFor(ds[0], mods[k], modsPath, backupMods, backupDirectory)).Err? then []
      else
        [IgnoreHandlers.Job(ds[0].modId, modPath, BackendCommands.RemoteTime(mods[k], now))] +
        InTurnMarks(ds[1..], mods, modsPath, backupMods, backupDirectory, install, modPath, now)
  }

  /** The marker tasks `update_mods` runs: none when it stops before the loop. */
  function UpdateMarks(mods: seq<BaseMod>, backupMods: bool, backupDirectory: Option<Path>,
                       downloaded: Result<seq<DownloadedMod>, string>,
                       install: DownloadHandlers.InstallRequest -> Result<Path, string>, now: int): seq<IgnoreHandlers.Job>
  {
    if mods == [] || mods[0].modPath == [] || downloaded.Err? then []
    else InTurnMarks(downloaded.value, mods, mods[0].modPath[..|mods[0].modPath| - 1], backupMods, backupDirectory,
                     install, mods[0].modPath, now)
  }

  /**
   * `update_mods`: the downloaded mods are installed one after another,
   * and the first one that has no original or fails to install ends the
   * command. After each install that succeeded, the mod's update time
   * goes into the `.lastupdated` marker of every folder of its ID in the
   * mods folder; those markers stay when a later install fails.
   */
  method UpdateMods(fs: Fs, mods: seq<BaseMod>, backupMods: bool, backupDirectory: Option<Path>,
                    downloaded: Result<seq<DownloadedMod>, string>,
                    install: DownloadHandlers.InstallRequest -> Result<Path, string>, now: int)
    returns (r: Result<seq<BaseMod>, string>, requests: seq<DownloadHandlers.InstallRequest>, ghost folders: seq<seq<Path>>)
    requires fs.Valid()
    modifies fs
    ensures fs.Valid()
    ensures BackendCommands.Update(r, requests) == UpdateSpec(mods, backupMods, backupDirectory, downloaded, install)
    ensures var jobs := UpdateMarks(mods, backupMods, backupDirectory, downloaded, install, now);
            && |folders| == |jobs|
            && IgnoreHandlers.MarkedInTurn(old(fs.tree), jobs, folders, LastUpdatedFile)
            && fs.tree == IgnoreHandlers.MarkedTree(old(fs.tree), jobs, folders, LastUpdatedFile)
  {
    requests, folders := [], [];
    if mods == [] {
      return Err(UpdateHandlers.NoModsGiven), requests, folders;
    }
    var modsPath := GetModsPathFromModPath(mods[0].modPath);
    if modsPath.Err? {
      return Err(modsPath.error), requests, folders;
    }
    if downloaded.Err? {
      return Err(UpdateHandlers.DownloadFailed + downloaded.error), requests, folders;
    }
    var ds := downloaded.value;
    if ds == [] {
      return Err(BackendCommands.NothingDownloaded), requests, folders;
    }
    r, requests, folders := InstallAll(fs, ds, mods, modsPath.value, backupMods, backupDirectory, install, now);
  }

  /** The loop of `update_mods`, with the marker writes after each install that succeeded. */
  method InstallAll(fs: Fs, ds: seq<DownloadedMod>, mods: seq<BaseMod>, modsPath: Path, backupMods: bool,
                    backupDirectory: Option<Path>, install: DownloadHandlers.InstallRequest -> Result<Path, string>, now: int)
    returns (r: Result<seq<BaseMod>, string>, requests: seq<DownloadHandlers.InstallRequest>, ghost folders: seq<seq<Path>>)
    requires fs.Valid() && mods != [] && mods[0].modPath != [] && modsPath == mods[0].modPath[..|mods[0].modPath| - 1]
    modifies fs
    ensures fs.Valid()
    ensures BackendCommands.Update(r, requests) == InstallInTurn(ds, mods, modsPath, backupMods, backupDirectory, install)
    ensures var jobs := InTurnMarks(ds, mods, modsPath, backupMods, backupDirectory, install, mods[0].modPath, now);
            && |folders| == |jobs|
            && IgnoreHandlers.MarkedInTurn(old(fs.tree), jobs, folders, LastUpdatedFile)
            && fs.tree == IgnoreHandlers.MarkedTree(old(fs.tree), jobs, folders, LastUpdatedFile)
  {
    ghost var t0 := fs.tree;
    ghost var whole := InstallInTurn(ds, mods, modsPath, backupMods, backupDirectory, install);
    ghost var marks := InTurnMarks(ds, mods, modsPath, backupMods, backupDirectory, install, mods[0].modPath, now);
    requests, folders := [], [];
    var out: seq<BaseMod> := [];
    var jobs: seq<IgnoreHandlers.Job> := [];
    assert ds[0..] == ds && requests + whole.requests == whole.requests && jobs + marks == marks;
    assert whole.result.Ok? ==> out + whole.result.value == whole.result.value;
    for i := 0 to |ds|
      invariant fs.Valid() && |folders| == |jobs|
      invariant whole == Before(out, requests, InstallInTurn(ds[i..], mods, modsPath, backupMods, backupDirectory, install))
      invariant marks == jobs + InTurnMarks(ds[i..], mods, modsPath, backupMods, backupDirectory, install, mods[0].modPath, now)
      invariant IgnoreHandlers.MarkedInTurn(t0, jobs, folders, LastUpdatedFile)
      invariant fs.tree == IgnoreHandlers.MarkedTree(t0, jobs, folders, LastUpdatedFile)
    {
      InTurnStep(ds, i, mods, modsPath, backupMods, backupDirectory, install, mods[0].modPath, now,
                 whole, marks, out, requests, jobs);
      var k := FindIndex(mods, ds[i].modId);
      if k == |mods| {
        return Err(UpdateHandlers.OriginalMissing + ds[i].modId), requests, folders;
      }
      var request := RequestFor(ds[i], mods[k], modsPath, backupMods, backupDirectory);
      var installed := install(request);
      if installed.Err? {
        return Err(InstallFailedFor + ds[i].modId + ": " + installed.error), requests + [request], folders;
      }
      var job := IgnoreHandlers.Job(ds[i].modId, mods[0].modPath, BackendCommands.RemoteTime(mods[k], now));
      ghost var chosen := IgnoreHandlers.AppendJob(fs, jobs, job, LastUpdatedFile, t0, folders);
      out := out + [Installed(mods[k], installed.value)];
      requests := requests + [request];
      jobs, folders := jobs + [job], folders + [chosen];
    }
    assert ds[|ds|..] == [] && out + [] == out && requests + [] == requests && jobs + [] == jobs;
    return Ok(out), requests, folders;
  }

  /**
   * As many marker tasks as installs that succeeded: the requests
   * asked for beyond the tasks are at most the failed install that ends
   * the command, and a command succeeds exactly when every download got
   * its task.
   */
  lemma {:induction false} MarksCount(ds: seq<DownloadedMod>, mods: seq<BaseMod>, modsPath: Path, backupMods: bool,
                                      backupDirectory: Option<Path>,
                                      install: DownloadHandlers.InstallRequest -> Result<Path, string>,
                                      modPath: Path, now: int)
    ensures var u := InstallInTurn(ds, mods, modsPath, backupMods, backupDirectory, install);
            var jobs := InTurnMarks(ds, mods, modsPath, backupMods, backupDirectory, install, modPath, now);
            && |jobs| <= |u.requests| <= |ds|
            && (|jobs| < |u.requests| ==> |u.requests| == |jobs| + 1 && install(u.requests[|jobs|]).Err?)
            && (u.result.Ok? <==> |jobs| == |ds|)
  {
    if ds != [] {
      var k := FindIndex(mods, ds[0].modId);
      if k < |mods| {
        var request := RequestFor(ds[0], mods[k], modsPath, backupMods, backupDirectory);
        if install(request).Ok? {
          MarksCount(ds[1..], mods, modsPath, backupMods, backupDirectory, install, modPath, now);
          var u := InstallInTurn(ds, mods, modsPath, backupMods, backupDirectory, install);
          var v := InstallInTurn(ds[1..], mods, modsPath, backupMods, backupDirectory, install);
          var jobs := InTurnMarks(ds, mods, modsPath, backupMods, backupDirectory, install, modPath, now);
          assert u.requests == [request] + v.requests;
          if |jobs| < |u.requests| {
            assert u.requests[|jobs|] == v.requests[|jobs| - 1];
          }
        } else {
          assert InstallInTurn(ds, mods, modsPath, backupMods, backupDirectory, install).requests == [request];
        }
      }
    }
  }

  /**
   * The marker task of download `k`, when there is one: it follows an
   * install that succeeded and records the update time of the first
   * given mod of the download's ID.
   */
  lemma {:induction false} MarkAt(ds: seq<DownloadedMod>, mods: seq<BaseMod>, modsPath: Path, backupMods: bool,
                                  backupDirectory: Option<Path>,
                                  install: DownloadHandlers.InstallRequest -> Result<Path, string>,
                                  modPath: Path, now: int, k: nat)
    ensures var u := InstallInTurn(ds, mods, modsPath, backupMods, backupDirectory, install);
            var jobs := InTurnMarks(ds, mods, modsPath, backupMods, backupDirectory, install, modPath, now);
            k < |jobs| ==>
              && k < |ds| && k < |u.requests|
              && FindIndex(mods, ds[k].modId) < |mods|
              && install(u.requests[k]).Ok?
              && jobs[k] == IgnoreHandlers.Job(ds[k].modId, modPath,
                                               BackendCommands.RemoteTime(mods[FindIndex(mods, ds[k].modId)], now))
  {
    if ds != [] && k > 0 {
      var f := FindIndex(mods, ds[0].modId);
      if f < |mods| && install(RequestFor(ds[0], mods[f], modsPath, backupMods, backupDirectory)).Ok? {
        MarkAt(ds[1..], mods, modsPath, backupMods, backupDirectory, install, modPath, now, k - 1);
        var u := InstallInTurn(ds, mods, modsPath, backupMods, backupDirectory, install);
        var v := InstallInTurn(ds[1..], mods, modsPath, backupMods, backupDirectory, install);
        var jobs := InTurnMarks(ds, mods, modsPath, backupMods, backupDirectory, install, modPath, now);
        var rest := InTurnMarks(ds[1..], mods, modsPath, backupMods, backupDirectory, install, modPath, now);
        if k < |jobs| {
          assert ds[1..][k - 1] == ds[k];
          assert u.requests[k] == v.requests[k - 1];
          assert jobs[k] == rest[k - 1];
        }
      }
    }
  }

  /**
   * Every install that succeeded, and only those, is followed by a
   * marker task, in order: the task of download `k` records the update
   * time of the first given mod of its ID; a command that fails at an
   * install writes no markers for it; a successful command writes them
   * for every download.
   */
  lemma MarksFollowInstalls(ds: seq<DownloadedMod>, mods: seq<BaseMod>, modsPath: Path, backupMods: bool,
                            backupDirectory: Option<Path>, install: DownloadHandlers.InstallRequest -> Result<Path, string>,
                            modPath: Path, now: int)
    ensures var u := InstallInTurn(ds, mods, modsPath, backupMods, backupDirectory, install);
            var jobs := InTurnMarks(ds, mods, modsPath, backupMods, backupDirectory, install, modPath, now);
            && |jobs| <= |u.requests| <= |ds|
            && (forall k :: 0 <= k < |jobs| ==>
                  && FindIndex(mods, ds[k].modId) < |mods|
                  && install(u.requests[k]).Ok?
                  && jobs[k] == IgnoreHandlers.Job(ds[k].modId, modPath,
                                                   BackendCommands.RemoteTime(mods[FindIndex(mods, ds[k].modId)], now)))
            && (|jobs| < |u.requests| ==> |u.requests| == |jobs| + 1 && install(u.requests[|jobs|]).Err?)
            && (u.result.Ok? <==> |jobs| == |ds|)
  {
    MarksCount(ds, mods, modsPath, backupMods, backupDirectory, install, modPath, now);
    forall k | 0 <= k < |InTurnMarks(ds, mods, modsPath, backupMods, backupDirectory, install, modPath, now)| {
      MarkAt(ds, mods, modsPath, backupMods, backupDirectory, install, modPath, now, k);
    }
  }

  /**
   * One turn of the loop of `update_mods`, in terms of the whole
   * command: a download without an original or a failed install ends
   * it with what was done so far; a successful install moves its answer,
   * its request and its marker task to the part done.
   */
  lemma InTurnStep(ds: seq<DownloadedMod>, i: nat, mods: seq<BaseMod>, modsPath: Path, backupMods: bool,
                   backupDirectory: Option<Path>, install: DownloadHandlers.InstallRequest -> Result<Path, string>,
                   modPath: Path, now: int, whole: BackendCommands.Update, marks: seq<IgnoreHandlers.Job>,
                   out: seq<BaseMod>, requests: seq<DownloadHandlers.InstallRequest>, jobs: seq<IgnoreHandlers.Job>)
    requires i < |ds|
    requires whole == Before(out, requests, InstallInTurn(ds[i..], mods, modsPath, backupMods, backupDirectory, install))
    requires marks == jobs + InTurnMarks(ds[i..], mods, modsPath, backupMods, backupDirectory, install, modPath, now)
    ensures var k := FindIndex(mods, ds[i].modId);
            if k == |mods| then
              whole == BackendCommands.Update(Err(UpdateHandlers.OriginalMissing + ds[i].modId), requests) && marks == jobs
            else
              var request := RequestFor(ds[i], mods[k], modsPath, backupMods, backupDirectory);
              if install(request).Err? then
                && whole == BackendCommands.Update(Err(InstallFailedFor + ds[i].modId + ": " + install(request).error),
                                                   requests + [request])
                && marks == jobs
              else
                && whole == Before(out + [Installed(mods[k], install(request).value)], requests + [request],
                                   InstallInTurn(ds[i + 1..], mods, modsPath, backupMods, backupDirectory, install))
                && marks == jobs + [IgnoreHandlers.Job(ds[i].modId, modPath, BackendCommands.RemoteTime(mods[k], now))]
                            + InTurnMarks(ds[i + 1..], mods, modsPath, backupMods, backupDirectory, install, modPath, now)
  {
    assert ds[i..][0] == ds[i] && ds[i..][1..] == ds[i + 1..];
    assert requests + [] == requests && jobs + [] == jobs;
    var k := FindIndex(mods, ds[i].modId);
    if k < |mods| {
      var request := RequestFor(ds[i], mods[k], modsPath, backupMods, backupDirectory);
      if install(request).Ok? {
        var job := IgnoreHandlers.Job(ds[i].modId, modPath, BackendCommands.RemoteTime(mods[k], now));
        BeforeStep(out, requests, Installed(mods[k], install(request).value), request,
                   InstallInTurn(ds[i + 1..], mods, modsPath, backupMods, backupDirectory, install));
        ConcatAssoc(jobs, [job], InTurnMarks(ds[i + 1..], mods, modsPath, backupMods, backupDirectory, install, modPath, now));
      }
    }
  }



  /**
   * The installs are asked for in download order, each for the first
   * given mod of the download's ID, and every install but the last one
   * asked for succeeded.
   */
  lemma {:induction false} RequestsInTurn(ds: seq<DownloadedMod>, mods: seq<BaseMod>, modsPath: Path, backupMods: bool,
                                          backupDirectory: Option<Path>,
                                          install: DownloadHandlers.InstallRequest -> Result<Path, string>)
    ensures var u := InstallInTurn(ds, mods, modsPath, backupMods, backupDirectory, install);
            && |u.requests| <= |ds|
            && forall k :: 0 <= k < |u.requests| ==>
                 && FindIndex(mods, ds[k].modId) < |mods|
                 && u.requests[k] == RequestFor(ds[k], mods[FindIndex(mods, ds[k].modId)], modsPath, backupMods, backupDirectory)
                 && (k + 1 < |u.requests| ==> install(u.requests[k]).Ok?)
  {
    if ds != [] {
      var k := FindIndex(mods, ds[0].modId);
      if k < |mods| && install(RequestFor(ds[0], mods[k], modsPath, backupMods, backupDirectory)).Ok? {
        RequestsInTurn(ds[1..], mods, modsPath, backupMods, backupDirectory, install);
        var u := InstallInTurn(ds, mods, modsPath, backupMods, backupDirectory, install);
        var v := InstallInTurn(ds[1..], mods, modsPath, backupMods, backupDirectory, install);
        assert u.requests == [RequestFor(ds[0], mods[k], modsPath, backupMods, backupDirectory)] + v.requests;
        forall j | 1 <= j < |u.requests|
          ensures u.requests[j] == v.requests[j - 1] && ds[j] == ds[1..][j - 1]
        {
        }
      }
    }
  }

  /**
   * The command succeeds exactly when every downloaded mod was asked to
   * be installed and every install succeeded.
   */
  lemma {:induction false} InTurnSucceeds(ds: seq<DownloadedMod>, mods: seq<BaseMod>, modsPath: Path, backupMods: bool,
                                          backupDirectory: Option<Path>,
                                          install: DownloadHandlers.InstallRequest -> Result<Path, string>)
    ensures var u := InstallInTurn(ds, mods, modsPath, backupMods, backupDirectory, install);
            u.result.Ok? <==> |u.requests| == |ds| && forall k :: 0 <= k < |ds| ==> install(u.requests[k]).Ok?
  {
    if ds != [] {
      var k := FindIndex(mods, ds[0].modId);
      if k < |mods| {
        var request := RequestFor(ds[0], mods[k], modsPath, backupMods, backupDirectory);
        if install(request).Ok? {
          InTurnSucceeds(ds[1..], mods, modsPath, backupMods, backupDirectory, install);
          var u := InstallInTurn(ds, mods, modsPath, backupMods, backupDirectory, install);
          var v := InstallInTurn(ds[1..], mods, modsPath, backupMods, backupDirectory, install);
          assert u.requests == [request] + v.requests;
          if |u.requests| == |ds| && forall k :: 0 <= k < |ds| ==> install(u.requests[k]).Ok? {
            forall k | 0 <= k < |ds| - 1
              ensures install(v.requests[k]).Ok?
            {
              assert v.requests[k] == u.requests[k + 1];
            }
          }
        } else {
          assert InstallInTurn(ds, mods, modsPath, backupMods, backupDirectory, install).requests[0] == request;
        }
      }
    }
  }

  /** A successful command answers once per download and asked for one install per download. */
  lemma {:induction false} InTurnLengths(ds: seq<DownloadedMod>, mods: seq<BaseMod>, modsPath: Path, backupMods: bool,
                                         backupDirectory: Option<Path>,
                                         install: DownloadHandlers.InstallRequest -> Result<Path, string>)
    ensures var u := InstallInTurn(ds, mods, modsPath, backupMods, backupDirectory, install);
            u.result.Ok? ==> |u.result.value| == |ds| == |u.requests|
  {
    if ds != [] {
      InTurnLengths(ds[1..], mods, modsPath, backupMods, backupDirectory, install);
    }
  }

  /**
   * The answer of a successful command for the download at `k`: the
   * first given mod of the download's ID under the path its install
   * answered, its folder the path's last part, and marked updated.
   */
  lemma {:induction false} InTurnAnswerAt(ds: seq<DownloadedMod>, mods: seq<BaseMod>, modsPath: Path, backupMods: bool,
                                          backupDirectory: Option<Path>,
                                          install: DownloadHandlers.InstallRequest -> Result<Path, string>, k: nat)
    requires k < |ds|
    ensures var u := InstallInTurn(ds, mods, modsPath, backupMods, backupDirectory, install);
            u.result.Ok? ==>
              && k < |u.result.value| && k < |u.requests|
              && FindIndex(mods, ds[k].modId) < |mods|
              && install(u.requests[k]) == Ok(u.result.value[k].modPath)
              && u.result.value[k] == Installed(mods[FindIndex(mods, ds[k].modId)], u.result.value[k].modPath)
  {
    var u := InstallInTurn(ds, mods, modsPath, backupMods, backupDirectory, install);
    InTurnLengths(ds, mods, modsPath, backupMods, backupDirectory, install);
    if u.result.Ok? && k > 0 {
      var v := InstallInTurn(ds[1..], mods, modsPath, backupMods, backupDirectory, install);
      InTurnAnswerAt(ds[1..], mods, modsPath, backupMods, backupDirectory, install, k - 1);
      assert ds[1..][k - 1] == ds[k];
      assert u.requests[k] == v.requests[k - 1];
      assert u.result.value[k] == v.result.value[k - 1];
    }
  }

  /**
   * A successful command answers once per download, in order, with the
   * first given mod of the download's ID under the installed path, its
   * folder the path's last part, and marked updated.
   */
  lemma InTurnAnswers(ds: seq<DownloadedMod>, mods: seq<BaseMod>, modsPath: Path, backupMods: bool,
                      backupDirectory: Option<Path>, install: DownloadHandlers.InstallRequest -> Result<Path, string>)
    ensures var u := InstallInTurn(ds, mods, modsPath, backupMods, backupDirectory, install);
            u.result.Ok? ==>
              && |u.result.value| == |ds| == |u.requests|
              && forall k :: 0 <= k < |ds| ==>
                   && FindIndex(mods, ds[k].modId) < |mods|
                   && install(u.requests[k]) == Ok(u.result.value[k].modPath)
                   && u.result.value[k] == Installed(mods[FindIndex(mods, ds[k].modId)], u.result.value[k].modPath)
  {
    InTurnLengths(ds, mods, modsPath, backupMods, backupDirectory, install);
    forall k | 0 <= k < |ds| {
      InTurnAnswerAt(ds, mods, modsPath, backupMods, backupDirectory, install, k);
    }
  }

  /**
   * A failed command names its cause: either the download after the
   * last install asked for has no original among the given mods, or the
   * last install asked for failed, and its message is passed on.
   */
  lemma {:induction false} InTurnFailure(ds: seq<DownloadedMod>, mods: seq<BaseMod>, modsPath: Path, backupMods: bool,
                                         backupDirectory: Option<Path>,
                                         install: DownloadHandlers.InstallRequest -> Result<Path, string>)
    ensures var u := InstallInTurn(ds, mods, modsPath, backupMods, backupDirectory, install);
            var n := |u.requests|;
            u.result.Err? ==>
              || (n < |ds| && (forall m :: m in mods ==> m.modId != ds[n].modId)
                  && u.result.error == UpdateHandlers.OriginalMissing + ds[n].modId)
              || (0 < n <= |ds| && install(u.requests[n - 1]).Err?
                  && u.result.error == InstallFailedFor + ds[n - 1].modId + ": " + install(u.requests[n - 1]).error)
  {
    if ds != [] {
      var k := FindIndex(mods, ds[0].modId);
      if k < |mods| {
        var request := RequestFor(ds[0], mods[k], modsPath, backupMods, backupDirectory);
        if install(request).Ok? {
          InTurnFailure(ds[1..], mods, modsPath, backupMods, backupDirectory, install);
        }
      }
    }
  }

  // ---------------------------------------------------------------
  // ignore_update

  /** The error of a mod path without a parent. */
  const NoParent := "Cannot get mods path"

  /** Where the mods are taken in turn stops: the first mod whose path has no parent, or the end. */
  function FirstParentless(mods: seq<BaseMod>): (k: nat)
    ensures k <= |mods|
    ensures forall j :: 0 <= j < k ==> mods[j].modPath != []
    ensures k < |mods| ==> mods[k].modPath == []
  {
    if mods == [] then 0
    else if mods[0].modPath == [] then 0
    else 1 + FirstParentless(mods[1..])
  }

  /** The time recorded for a mod: its details' update time, else the looked-up one, else now. */
  function LookedUpTime(m: BaseMod, single: string -> Result<Details, SteamError>, now: int): int
  {
    if m.details.Some? then m.details.value.timeUpdated
    else if single(m.modId).Ok? then single(m.modId).value.timeUpdated
    else now
  }

  /** The marker tasks `ignore_update` runs: one per mod, in order, up to the first mod without a parent. */
  function IgnoreJobs(mods: seq<BaseMod>, single: string -> Result<Details, SteamError>, now: int)
    : (jobs: seq<IgnoreHandlers.Job>)
    ensures |jobs| == FirstParentless(mods)
  {
    var n := FirstParentless(mods);
    seq(n, k requires 0 <= k < n => IgnoreHandlers.Job(mods[k].modId, mods[k].modPath, LookedUpTime(mods[k], single, now)))
  }

  /**
   * `ignore_update`: each mod in turn records its update time (from its
   * details, else the client's lookup, else now) as the `.lastupdated`
   * marker of every folder of its ID beside it; a mod path without a
   * parent ends the command with an error, and the markers already
   * written stay. `single` answers the client's lookups.
   */
  method IgnoreUpdate(fs: Fs, mods: seq<BaseMod>, single: string -> Result<Details, SteamError>, now: int)
    returns (r: Result<seq<IgnoreHandlers.IgnoredEntry>, string>, ghost folders: seq<seq<Path>>)
    requires fs.Valid()
    modifies fs
    ensures fs.Valid()
    ensures var jobs := IgnoreJobs(mods, single, now);
            && r == (if |jobs| < |mods| then Err(NoParent) else Ok(IgnoreHandlers.IgnoredReport(jobs)))
            && |folders| == |jobs|
            && IgnoreHandlers.MarkedInTurn(old(fs.tree), jobs, folders, LastUpdatedFile)
            && fs.tree == IgnoreHandlers.MarkedTree(old(fs.tree), jobs, folders, LastUpdatedFile)
  {
    ghost var t0 := fs.tree;
    ghost var all := IgnoreJobs(mods, single, now);
    var jobs: seq<IgnoreHandlers.Job> := [];
    var ignored: seq<IgnoreHandlers.IgnoredEntry> := [];
    folders := [];
    for i := 0 to |mods|
      invariant fs.Valid() && i <= |all| && jobs == all[..i] && |folders| == i
      invariant ignored == IgnoreHandlers.IgnoredReport(jobs)
      invariant IgnoreHandlers.MarkedInTurn(t0, jobs, folders, LastUpdatedFile)
      invariant fs.tree == IgnoreHandlers.MarkedTree(t0, jobs, folders, LastUpdatedFile)
    {
      var time := LookedUpTime(mods[i], single, now);
      if mods[i].modPath == [] {
        assert all == jobs;
        return Err(NoParent), folders;
      }
      var job := IgnoreHandlers.Job(mods[i].modId, mods[i].modPath, time);
      assert job == all[i] && all[..i + 1] == jobs + [job];
      ghost var chosen := IgnoreHandlers.AppendJob(fs, jobs, job, LastUpdatedFile, t0, folders);
      IgnoreHandlers.IgnoredReportExtend(jobs + [job], i);
      assert (jobs + [job])[..i] == jobs;
      jobs, folders := jobs + [job], folders + [chosen];
      ignored := ignored + [IgnoreHandlers.IgnoredEntry(mods[i].modId)];
    }
    assert all[..|mods|] == all;
    return Ok(ignored), folders;
  }

  /**
   * The command succeeds exactly when every mod path has a parent; it
   * then names every mod in order, and each mod's task records the time
   * of its details when it has them, else a successful lookup's time.
   */
  lemma IgnoreOutcome(mods: seq<BaseMod>, single: string -> Result<Details, SteamError>, now: int)
    ensures var jobs := IgnoreJobs(mods, single, now);
            && (|jobs| == |mods| <==> forall m :: m in mods ==> m.modPath != [])
            && (|jobs| == |mods| ==>
                  && BackendCommands.ReportedIds(IgnoreHandlers.IgnoredReport(jobs)) == BackendCommands.IdsOf(mods))
            && (forall k :: 0 <= k < |jobs| ==>
                  && jobs[k].modId == mods[k].modId && jobs[k].modPath == mods[k].modPath
                  && (mods[k].details.Some? ==> jobs[k].time == mods[k].details.value.timeUpdated)
                  && (mods[k].details.None? && single(mods[k].modId).Ok? ==>
                        jobs[k].time == single(mods[k].modId).value.timeUpdated))
  {
    var jobs := IgnoreJobs(mods, single, now);
    if |jobs| < |mods| {
      assert mods[|jobs|] in mods;
    }
  }

  // ---------------------------------------------------------------
  // get_file_details, is_collection, get_collection_details

  /** Why a lookup of the desktop commands failed: `"Failed to fetch file details: {e}"`. */
  datatype LookupError = FileDetailsFailed(cause: SteamError)

  /** `get_file_details`: the client's details for the ID, or its error. */
  function GetFileDetails(modId: string, single: string -> Result<Details, SteamError>): (r: Result<Details, LookupError>)
    ensures r.Ok? <==> single(modId).Ok?
    ensures r.Ok? ==> r.value == single(modId).value
    ensures r.Err? ==> r.error == FileDetailsFailed(single(modId).error)
  {
    var found := single(modId);
    if found.Ok? then Ok(found.value) else Err(FileDetailsFailed(found.error))
  }

  /** `is_collection`: the client's answer for the ID, or its error. */
  function IsCollection(modId: string, check: string -> Result<bool, SteamError>): (r: Result<bool, WorkshopHandlers.HandlerError>)
    ensures r.Ok? <==> check(modId).Ok?
    ensures r.Ok? ==> r.value == check(modId).value
    ensures r.Err? ==> r.error == WorkshopHandlers.CollectionCheckFailed(check(modId).error)
  {
    var checked := check(modId);
    if checked.Ok? then Ok(checked.value) else Err(WorkshopHandlers.CollectionCheckFailed(checked.error))
  }

  /**
   * Where the backend's batch query fails, its `get_file_details`
   * finds the same details as this one, and its `is_collection` answers
   * exactly as this one; the desktop `get_collection_details` has the
   * backend's body (`WorkshopHandlers.GetCollectionDetails`).
   */
  lemma LookupsAgreeWithHandlers(modId: string, query: BatchQuery, single: string -> Result<Details, SteamError>,
                                 scrape: string -> Result<bool, SteamError>, check: string -> Result<bool, SteamError>)
    requires query([modId]).Err?
    ensures var h := WorkshopHandlers.GetFileDetails(modId, query, single);
            (h.Ok? <==> GetFileDetails(modId, single).Ok?) && (h.Ok? ==> h.value == GetFileDetails(modId, single).value)
    ensures WorkshopHandlers.IsCollection(modId, query, scrape, check) == IsCollection(modId, check)
  {
  }

  // ---------------------------------------------------------------
  // download_mod

  /**
   * `download_mod` of the front end: the older protocol with the fixed
   * download folder and no title; the update time is the single
   * lookup's, else now.
   */
  method DownloadMod(fs: Fs, dl: Downloader, modId: string, modsPath: Path, started: Result<seq<DownloadedMod>, string>,
                     single: Result<Details, SteamError>, now: int,
                     install: DownloadHandlers.InstallRequest -> Result<Path, string>)
    returns (r: Result<DownloadedMod, string>, request: Option<DownloadHandlers.InstallRequest>,
             ghost steps: seq<DownloadHandlers.RegistryStep>)
    requires fs.Valid()
    modifies fs, dl
    ensures fs.Valid()
    ensures dl.activeDownloads == old(dl.activeDownloads)
    ensures dl.downloadPath == old(dl.downloadPath) && dl.steamcmdPath == old(dl.steamcmdPath)
    ensures modId in old(dl.activeDownloads) ==>
              r == Err(DownloadHandlers.AlreadyDownloading) && request == None && steps == [] && fs.tree == old(fs.tree)
    ensures modId !in old(dl.activeDownloads) ==>
              && steps == [DownloadHandlers.Begin(modId), DownloadHandlers.Release(modId)]
              && BackendCommands.Fetched(fs.tree, r, request)
                 == BackendCommands.FetchSpec(old(fs.tree), DownloadFolder, modsPath, started, None,
                                              if single.Ok? then single.value.timeUpdated else now, install)
  {
    var time := if single.Ok? then single.value.timeUpdated else now;
    r, request, steps := BackendCommands.Fetch(fs, dl, modId, DownloadFolder, modsPath, started, None, time, install);
  }
}
