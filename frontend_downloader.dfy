// The older downloader of the desktop front end: one SteamCMD run for
// the whole request with a single script `run.txt`, and a polling
// detector that looks at each mod folder once a second for up to five
// minutes. Its registry of downloads in flight and its script text are
// the same as the backend's (`SteamCmdClient.Downloader`,
// `SteamCmdClient.BuildScript`).

module FrontendDownloader {
  import opened Common
  import opened SteamCmdClient

  /** The polling detector gives up after this many seconds ... */
  const PollTimeout: nat := 300

  /** ... looking at the folder once per this many seconds. */
  const PollInterval: nat := 1

  /** The script file of the single run. */
  const ScriptName: string := "run.txt"

  /**
   * `download_mods`: write one script for all IDs, run SteamCMD once,
   * then wait for each ID's folder in request order and return the ones
   * that arrived. `setupError` stands for a failure before SteamCMD
   * finished (creating the download directory, writing the script,
   * finding, starting or waiting for SteamCMD). SteamCMD's exit status
   * is only logged: the result does not depend on `exitSuccess`.
   */
  method DownloadMods(steamcmdAbs: string, downloadAbs: Path, ids: seq<string>, setupError: Option<string>,
                      exitSuccess: bool, probes: string -> nat -> FolderState)
    returns (script: string, r: Result<seq<DownloadedMod>, string>)
    ensures exists lines :: |lines| == |ids| + 3 && script == JoinWith(lines, "\n") + "\n"
              && lines[0] == ForceInstallDirLine(steamcmdAbs) && lines[1] == "login anonymous"
              && lines[|ids| + 2] == "quit"
              && forall k :: 0 <= k < |ids| ==> lines[k + 2] == WorkshopItemLine(ids[k])
    ensures setupError.Some? ==> r == Err(setupError.value)
    ensures setupError.None? ==> r == Ok(ArrivedMods(downloadAbs, ids, probes, PollTimeout, PollInterval))
  {
    var lines;
    lines, script := BuildScript(steamcmdAbs, ids);
    if setupError.Some? {
      return script, Err(setupError.value);
    }
    var mods := CollectArrived(downloadAbs, ids, probes, PollTimeout, PollInterval);
    r := Ok(mods);
  }

  /**
   * The polling detector returns the mod at the first look (one per
   * second) that finds its folder a non-empty directory, and `None`
   * once a look at second 301, the first past the five-minute timeout,
   * still does not.
   */
  lemma PollingDetectorLimits(probe: nat -> FolderState)
    ensures LastPoll(PollTimeout, PollInterval) == 301
    ensures forall k :: PollTime(k, PollInterval) == k
    ensures Arrives(probe, PollTimeout, PollInterval) <==> exists t :: 0 <= t <= 301 && Ready(probe(t))
  {
    assert forall k :: PollTime(k, PollInterval) == k;
    if exists t :: 0 <= t <= 301 && Ready(probe(t)) {
      var t :| 0 <= t <= 301 && Ready(probe(t));
      assert Ready(probe(PollTime(t, PollInterval)));
    }
  }
}
