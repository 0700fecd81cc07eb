// The single-mod download commands of the backend. The downloader's
// registry of IDs in flight guards against downloading the same mod
// twice: an ID is registered only after the mods folder passes the
// access check, and every way out of `download_mod` after that releases
// it again. An installer error announcing a corrupted mod folder is
// re-worded so that the interface can ask the user and then call
// `continue_download_with_decision`.
//
// What the downloader's channel delivers, what the Workshop lookups
// answer, the clock and the installer's outcome are parameters; the
// install request the command makes is returned.

module DownloadHandlers {
  import opened Common
  import opened FileSystem
  import opened ModQuery
  import opened AccessCheck
  import opened WorkshopClient
  import opened Services
  import opened SteamCmdClient
  import opened CommandTypes
  import opened UpdateHandlers

  const AlreadyDownloading := "Mod is already being downloaded"
  const StartFailed := "Failed to download mod: "
  const DeliveryFailed := "Mod download failed: "
  const NoFolderCreated := "Mod download completed but no mod folder was created"
  const InstallFailed := "Failed to update mod: "

  // ---------------------------------------------------------------
  // The corrupted-mod conflict.

  const ConflictTag := "CORRUPTED_MOD_CONFLICT"

  /** `e.starts_with("CORRUPTED_MOD_CONFLICT:")`. */
  predicate IsConflict(e: string)
  {
    |e| > |ConflictTag| && e[..|ConflictTag| + 1] == ConflictTag + ":"
  }

  /** The name the conflict message shows: the Workshop title when known, else the ID. */
  function ShownTitle(title: Option<string>, modId: string): string
  {
    if title.Some? then title.value else modId
  }

  /** The conflict message for the interface: the folder, the mod's ID and the name shown. */
  function ConflictMessage(folder: string, modId: string, title: Option<string>): string
  {
    ConflictTag + ":" + folder + ":" + modId + ":" + ShownTitle(title, modId)
  }

  /**
   * How `download_mod` words an installer error: a conflict report with
   * at least three `:`-separated parts becomes the conflict message
   * naming its second part; any other error is reported as a failed
   * update.
   */
  function InstallErrorText(e: string, modId: string, title: Option<string>): string
  {
    var parts := SplitOn(e, ':');
    if IsConflict(e) && |parts| >= 3 then ConflictMessage(parts[1], modId, title)
    else InstallFailed + e
  }

  lemma TagHasNoColon()
    ensures ':' !in ConflictTag
  {
    assert forall i :: 0 <= i < |ConflictTag| ==> ConflictTag[i] != ':';
  }

  /** Splitting `<tag>:<field>:<rest>` when neither the tag nor the field holds a `:`. */
  lemma SplitTwoFields(tag: string, field: string, rest: string)
    requires ':' !in tag && ':' !in field
    ensures SplitOn(tag + ":" + field + ":" + rest, ':') == [tag, field] + SplitOn(rest, ':')
  {
    assert tag + ":" + field + ":" + rest == tag + [':'] + (field + [':'] + rest);
    SplitPiece(field, rest, ':');
    SplitPiece(tag, field + [':'] + rest, ':');
  }

  /** Splitting `<tag>:<rest>` when neither part holds a `:`. */
  lemma SplitOneField(tag: string, rest: string)
    requires ':' !in tag && ':' !in rest
    ensures SplitOn(tag + ":" + rest, ':') == [tag, rest]
  {
    assert tag + ":" + rest == tag + [':'] + rest;
    SplitPiece(rest, "", ':');
    SplitPiece(tag, rest, ':');
  }

  /**
   * A conflict report `CORRUPTED_MOD_CONFLICT:<folder>:<rest>` whose
   * folder name holds no `:` is re-worded with that folder name.
   */
  lemma ConflictReworded(folder: string, rest: string, modId: string, title: Option<string>)
    requires ':' !in folder
    ensures InstallErrorText(ConflictTag + ":" + folder + ":" + rest, modId, title) == ConflictMessage(folder, modId, title)
  {
    TagHasNoColon();
    SplitTwoFields(ConflictTag, folder, rest);
    var e := ConflictTag + ":" + folder + ":" + rest;
    assert e == (ConflictTag + ":") + (folder + ":" + rest);
  }

  /** A report with the conflict prefix but no second `:` is an ordinary failure. */
  lemma ShortConflictFails(rest: string, modId: string, title: Option<string>)
    requires ':' !in rest
    ensures InstallErrorText(ConflictTag + ":" + rest, modId, title) == InstallFailed + (ConflictTag + ":" + rest)
  {
    TagHasNoColon();
    SplitOneField(ConflictTag, rest);
  }

  /**
   * The interface can split the conflict message back into its four
   * fields, as long as none of them holds a `:`.
   */
  lemma ConflictMessageFields(folder: string, modId: string, title: Option<string>)
    requires ':' !in folder && ':' !in modId && ':' !in ShownTitle(title, modId)
    ensures SplitOn(ConflictMessage(folder, modId, title), ':') == [ConflictTag, folder, modId, ShownTitle(title, modId)]
  {
    var shown := ShownTitle(title, modId);
    TagHasNoColon();
    SplitTwoFields(ConflictTag, folder, modId + ":" + shown);
    SplitOneField(modId, shown);
    assert ConflictMessage(folder, modId, title) == ConflictTag + ":" + folder + ":" + (modId + ":" + shown);
    assert [ConflictTag, folder] + [modId, shown] == [ConflictTag, folder, modId, shown];
  }

  // ---------------------------------------------------------------
  // The commands.

  /** What the command asks of the installer (`update_mod`'s arguments, the last one the conflict decision). */
  datatype InstallRequest = InstallRequest(modId: string, modPath: Path, downloadPath: Path, modsPath: Path,
                                           existingFolderName: Option<string>, createBackup: bool,
                                           backupDirectory: Option<Path>, title: Option<string>,
                                           forceOverwrite: Option<bool>)

  /** A change to the registry of downloads in flight. */
  datatype RegistryStep = Begin(id: string) | Release(id: string)

  /** The title and update time of a mod: the batch lookup's last answer, else the single lookup, else no title and now. */
  function TitleAndTime(batch: Result<seq<Details>, string>, single: Result<Details, SteamError>, now: int)
    : (Option<string>, int)
  {
    if batch.Ok? && batch.value != [] then (Some(batch.value[|batch.value| - 1].title), batch.value[|batch.value| - 1].timeUpdated)
    else if single.Ok? then (Some(single.value.title), single.value.timeUpdated)
    else (None, now)
  }

  /** The title `continue_download_with_decision` gets: the batch lookup's last answer only. */
  function BatchTitle(batch: Result<seq<Details>, string>): Option<string>
  {
    if batch.Ok? && batch.value != [] then Some(batch.value[|batch.value| - 1].title) else None
  }

  /** The update time it gets: the second batch lookup's last answer, else now. */
  function BatchTime(batch: Result<seq<Details>, string>, now: int): int
  {
    if batch.Ok? && batch.value != [] then batch.value[|batch.value| - 1].timeUpdated else now
  }

  /**
   * What happens from the first message of the channel on, starting on
   * tree `t0` and leaving `t1`: a start failure, an empty channel or a
   * channel error fails the command; a delivered mod is handed to the
   * installer, and a successful install gets its `.lastupdated` marker.
   */
  ghost predicate ReceiveOutcome(t0: Tree, t1: Tree, modId: string, modsPath: Path, downloadPath: Path,
                                 started: Result<seq<Delivery>, string>, title: Option<string>, time: int,
                                 installed: Result<Path, string>,
                                 r: Result<DownloadedMod, CommandError>, request: Option<InstallRequest>)
  {
    && (started.Err? ==> r == Err(Message(StartFailed + started.error)) && request == None && t1 == t0)
    && (started.Ok? && started.value == [] ==> r == Err(Message(NoFolderCreated)) && request == None && t1 == t0)
    && (started.Ok? && started.value != [] && started.value[0].ChannelError? ==>
          r == Err(Message(DeliveryFailed + started.value[0].message)) && request == None && t1 == t0)
    && (started.Ok? && started.value != [] && started.value[0].Delivered? ==>
          var m := started.value[0].mod;
          && request == Some(InstallRequest(m.modId, m.modPath, downloadPath, modsPath, None, false, None, title, None))
          && (installed.Err? ==> r == Err(Message(InstallErrorText(installed.error, modId, title))) && t1 == t0)
          && (installed.Ok? ==>
                && r == Ok(DownloadedMod(m.modId, installed.value, m.folder))
                && t1 == MarkerWriteSpec(t0, installed.value, LastUpdatedFile, time)))
  }

  /**
   * From the first message of the channel to the installed mod: the tree
   * changes only by the `.lastupdated` marker of a successful install.
   * `downloadPath` is the downloader's download folder.
   */
  method Receive(fs: Fs, modId: string, modsPath: Path, downloadPath: Path, started: Result<seq<Delivery>, string>,
                 title: Option<string>, time: int, installed: Result<Path, string>)
    returns (r: Result<DownloadedMod, CommandError>, request: Option<InstallRequest>)
    requires fs.Valid()
    modifies fs
    ensures fs.Valid()
    ensures ReceiveOutcome(old(fs.tree), fs.tree, modId, modsPath, downloadPath, started, title, time, installed, r, request)
  {
    request := None;
    if started.Err? {
      return Err(Message(StartFailed + started.error)), request;
    }
    if started.value == [] {
      return Err(Message(NoFolderCreated)), request;
    }
    var first := started.value[0];
    if first.ChannelError? {
      return Err(Message(DeliveryFailed + first.message)), request;
    }
    var m := first.mod;
    request := Some(InstallRequest(m.modId, m.modPath, downloadPath, modsPath, None, false, None, title, None));
    if installed.Err? {
      return Err(Message(InstallErrorText(installed.error, modId, title))), request;
    }
    WriteLastUpdatedFile(fs, installed.value, time);
    r := Ok(DownloadedMod(m.modId, installed.value, m.folder));
  }

  /** What `download_mod` does, from the registry and the tree before the call. */
  ghost predicate DownloadOutcome(t0: Tree, t1: Tree, active: set<string>, modId: string, modsPath: Path,
                                  perms: Permissions, downloadPath: Path, started: Result<seq<Delivery>, string>,
                                  looked: (Option<string>, int), installed: Result<Path, string>,
                                  r: Result<DownloadedMod, CommandError>, event: Option<AccessEvent>,
                                  request: Option<InstallRequest>, steps: seq<RegistryStep>)
  {
    && (modId in active ==>
          && r == Err(Message(AlreadyDownloading)) && event == None && request == None
          && steps == [] && t1 == t0)
    && (modId !in active ==>
          var c := AccessSpec(t0, modsPath, perms);
          && (c.result.Err? ==>
                && r == Err(Denied(NoAccess(c.result.error))) && event == Some(EventOf(PathText(modsPath), c.result.error))
                && request == None && steps == [] && t1 == c.tree)
          && (c.result.Ok? ==>
                && event == None && steps == [Begin(modId), Release(modId)]
                && ReceiveOutcome(c.tree, t1, modId, modsPath, downloadPath, started, looked.0, looked.1,
                                  installed, r, request)))
  }

  /**
   * `download_mod`. `started` is what starting the download gives: the
   * channel's messages, or the error that kept it from starting. `batch`
   * and `single` are the Workshop lookups of the mod, `now` the clock,
   * `installed` the installer's outcome for the request made. `steps`
   * are the changes made to the registry, in order.
   */
  method DownloadMod(fs: Fs, dl: Downloader, modId: string, modsPath: Path, perms: Permissions,
                     started: Result<seq<Delivery>, string>, batch: Result<seq<Details>, string>,
                     single: Result<Details, SteamError>, now: int, installed: Result<Path, string>)
    returns (r: Result<DownloadedMod, CommandError>, event: Option<AccessEvent>, request: Option<InstallRequest>,
             ghost steps: seq<RegistryStep>)
    requires fs.Valid()
    modifies fs, dl
    ensures fs.Valid()
    ensures dl.activeDownloads == old(dl.activeDownloads)
    ensures dl.downloadPath == old(dl.downloadPath) && dl.steamcmdPath == old(dl.steamcmdPath)
    ensures DownloadOutcome(old(fs.tree), fs.tree, old(dl.activeDownloads), modId, modsPath, perms, old(dl.downloadPath),
                            started, TitleAndTime(batch, single, now), installed, r, event, request, steps)
  {
    request := None;
    steps := [];
    if dl.IsDownloading(modId) {
      return Err(Message(AlreadyDownloading)), None, request, steps;
    }
    var access;
    access, event := EnsureDirectoryAccess(fs, modsPath, PathText(modsPath), perms);
    if access.Err? {
      return Err(Denied(access.error)), event, request, steps;
    }
    var looked := TitleAndTime(batch, single, now);
    r, request, steps := DownloadRegistered(fs, dl, modId, modsPath, started, looked.0, looked.1, installed);
  }

  /**
   * The part of `download_mod` that runs with the ID in the registry:
   * the ID is taken, the download received and installed, and the ID
   * released on every way out.
   */
  method DownloadRegistered(fs: Fs, dl: Downloader, modId: string, modsPath: Path,
                            started: Result<seq<Delivery>, string>, title: Option<string>, time: int,
                            installed: Result<Path, string>)
    returns (r: Result<DownloadedMod, CommandError>, request: Option<InstallRequest>, ghost steps: seq<RegistryStep>)
    requires fs.Valid() && modId !in dl.activeDownloads
    modifies fs, dl
    ensures fs.Valid()
    ensures dl.activeDownloads == old(dl.activeDownloads)
    ensures dl.downloadPath == old(dl.downloadPath) && dl.steamcmdPath == old(dl.steamcmdPath)
    ensures steps == [Begin(modId), Release(modId)]
    ensures ReceiveOutcome(old(fs.tree), fs.tree, modId, modsPath, old(dl.downloadPath), started, title, time,
                           installed, r, request)
  {
    ghost var active := dl.activeDownloads;
    AddThenRemove(active, modId);
    var downloadPath := dl.downloadPath;
    dl.MarkDownloading(modId);
    steps := [Begin(modId)];
    r, request := Receive(fs, modId, modsPath, downloadPath, started, title, time, installed);
    dl.MarkDownloaded(modId);
    steps := steps + [Release(modId)];
    assert steps == [Begin(modId), Release(modId)];
  }

  lemma AddThenRemove(s: set<string>, x: string)
    requires x !in s
    ensures s + {x} - {x} == s
  {
  }

  /** What `continue_download_with_decision` answers: the mod and where it was installed. */
  datatype Continued = Continued(modId: string, modPath: Path)

  /**
   * `continue_download_with_decision`: the mod already downloaded is
   * installed with the user's decision on the corrupted folder. The
   * registry entry is released only when the install succeeds. `batch`
   * and `batchAgain` are the two Workshop lookups (for the title, then
   * for the update time).
   */
  method ContinueDownloadWithDecision(fs: Fs, dl: Downloader, modId: string, modsPath: Path, overwrite: bool,
                                      perms: Permissions, batch: Result<seq<Details>, string>,
                                      installed: Result<Path, string>, batchAgain: Result<seq<Details>, string>,
                                      now: int)
    returns (r: Result<Continued, CommandError>, event: Option<AccessEvent>, request: Option<InstallRequest>)
    requires fs.Valid()
    modifies fs, dl
    ensures fs.Valid()
    ensures dl.downloadPath == old(dl.downloadPath) && dl.steamcmdPath == old(dl.steamcmdPath)
    ensures r.Ok? ==> dl.activeDownloads == old(dl.activeDownloads) - {modId}
    ensures r.Err? ==> dl.activeDownloads == old(dl.activeDownloads)
    ensures var c := AccessSpec(old(fs.tree), modsPath, perms);
            var source := old(dl.downloadPath) + [modId];
            && (c.result.Err? ==>
                  && r == Err(Denied(NoAccess(c.result.error))) && event == Some(EventOf(PathText(modsPath), c.result.error))
                  && request == None && fs.tree == c.tree)
            && (c.result.Ok? && !IsDir(c.tree, source) ==>
                  && r == Err(Message("Downloaded mod not found at \"" + PathText(source) + "\""))
                  && event == None && request == None && fs.tree == c.tree)
            && (c.result.Ok? && IsDir(c.tree, source) ==>
                  && event == None
                  && request == Some(InstallRequest(modId, source, old(dl.downloadPath), modsPath, None, false, None,
                                                    BatchTitle(batch), Some(overwrite)))
                  && (installed.Err? ==> r == Err(Message(InstallFailed + installed.error)) && fs.tree == c.tree)
                  && (installed.Ok? ==>
                        && r == Ok(Continued(modId, installed.value))
                        && fs.tree == MarkerWriteSpec(c.tree, installed.value, LastUpdatedFile, BatchTime(batchAgain, now))))
  {
    request := None;
    var access;
    access, event := EnsureDirectoryAccess(fs, modsPath, PathText(modsPath), perms);
    if access.Err? {
      return Err(Denied(access.error)), event, request;
    }
    var source := dl.downloadPath + [modId];
    if !IsDir(fs.tree, source) {
      return Err(Message("Downloaded mod not found at \"" + PathText(source) + "\"")), event, request;
    }
    request := Some(InstallRequest(modId, source, dl.downloadPath, modsPath, None, false, None, BatchTitle(batch), Some(overwrite)));
    if installed.Err? {
      return Err(Message(InstallFailed + installed.error)), event, request;
    }
    WriteLastUpdatedFile(fs, installed.value, BatchTime(batchAgain, now));
    dl.MarkDownloaded(modId);
    r := Ok(Continued(modId, installed.value));
  }
}
