// The update command of the backend: the Workshop mods among those
// given are downloaded, each one delivered by the downloader is
// installed, and the command answers with every mod marked updated or
// not. Cancellation may arrive at any time from another command.
//
// The downloader's deliveries, each install's outcome (the installer is
// modelled on its own in ModManager) and what the cancel flag reads at
// each look are parameters. The install tasks run one after another in
// the order they are started.

module UpdateHandlers {
  import opened Common
  import opened FileSystem
  import opened ModQuery
  import opened AccessCheck
  import opened Services
  import opened SteamCmdClient
  import opened CommandTypes

  // ---------------------------------------------------------------
  // The cancel flag.

  /** The shared flag that asks a running update to stop. */
  class CancelFlag {
    var cancelled: bool

    constructor ()
      ensures !cancelled
    {
      cancelled := false;
    }

    /** `cancel_update_mods`: raise the flag (and tell the interface). */
    method Cancel()
      modifies this
      ensures cancelled
    {
      cancelled := true;
    }

    /** `check_update_cancelled`. */
    method IsCancelled() returns (r: bool)
      ensures r == cancelled
    {
      r := cancelled;
    }

    /** `reset_update_cancel_flag_command`. */
    method Reset()
      modifies this
      ensures !cancelled
    {
      cancelled := false;
    }
  }

  /** Whether any of the first `n` looks at the flag found a cancel request. */
  function AnyUpTo(requests: nat -> bool, n: nat): bool
  {
    n > 0 && (AnyUpTo(requests, n - 1) || requests(n - 1))
  }

  lemma {:induction false} NeverRequested(requests: nat -> bool, n: nat)
    requires forall k :: !requests(k)
    ensures !AnyUpTo(requests, n)
  {
    if n > 0 {
      NeverRequested(requests, n - 1);
    }
  }

  // ---------------------------------------------------------------
  // What is asked of the downloader.

  const NoModsGiven := "mods array is required"
  const NoSteamMods := "No Steam Workshop mods to update. Non-Steam mods cannot be updated."
  const DownloadFailed := "Failed to download mods: "
  const OriginalMissing := "Original mod not found for "
  const UpdateCancelled := "Update cancelled"

  /** The mods that come from the Workshop, in order. */
  function SteamOnly(mods: seq<ScannedMod>): (steam: seq<ScannedMod>)
  {
    if mods == [] then []
    else SteamOnly(mods[..|mods| - 1]) + (if mods[|mods| - 1].nonSteamMod then [] else [mods[|mods| - 1]])
  }

  lemma {:induction false} SteamOnlyMembers(mods: seq<ScannedMod>)
    ensures forall m :: m in SteamOnly(mods) <==> m in mods && !m.nonSteamMod
    ensures |SteamOnly(mods)| <= |mods|
  {
    if mods != [] {
      SteamOnlyMembers(mods[..|mods| - 1]);
      assert mods == mods[..|mods| - 1] + [mods[|mods| - 1]];
    }
  }

  /** The sizes the downloader balances by: each mod with details, by ID (a later mod replacing an earlier one). */
  function SizeMap(mods: seq<ScannedMod>): map<string, int>
  {
    if mods == [] then map[]
    else
      var m := mods[|mods| - 1];
      var init := SizeMap(mods[..|mods| - 1]);
      if m.details.Some? then init[m.modId := m.details.value.fileSize] else init
  }

  /** The size map holds exactly the IDs of the mods with details, each with the size of the last such mod. */
  lemma {:induction false} SizeMapKeys(mods: seq<ScannedMod>, id: string)
    ensures id in SizeMap(mods) <==> exists i :: 0 <= i < |mods| && mods[i].modId == id && mods[i].details.Some?
    ensures id in SizeMap(mods) ==>
              exists i :: 0 <= i < |mods| && mods[i].modId == id && mods[i].details.Some?
                          && SizeMap(mods)[id] == mods[i].details.value.fileSize
  {
    if mods != [] {
      var init := mods[..|mods| - 1];
      SizeMapKeys(init, id);
      assert forall i :: 0 <= i < |init| ==> init[i] == mods[i];
    }
  }

  /** `mods_map`: each mod under its ID, a later mod replacing an earlier one. */
  function ModsById(mods: seq<ScannedMod>): map<string, ScannedMod>
  {
    if mods == [] then map[] else ModsById(mods[..|mods| - 1])[mods[|mods| - 1].modId := mods[|mods| - 1]]
  }

  /** Every ID of the list is a key, nothing else is, and each key maps to a mod of the list with that ID. */
  lemma {:induction false} ModsByIdKeys(mods: seq<ScannedMod>)
    ensures forall id :: id in ModsById(mods) <==> id in ModIds(mods)
    ensures forall id :: id in ModsById(mods) ==> ModsById(mods)[id].modId == id && ModsById(mods)[id] in mods
  {
    if mods != [] {
      var init := mods[..|mods| - 1];
      ModsByIdKeys(init);
      assert mods == init + [mods[|mods| - 1]];
      assert forall id :: id in ModIds(mods) <==> id in ModIds(init) || id == mods[|mods| - 1].modId by {
        forall id
          ensures id in ModIds(mods) <==> id in ModIds(init) || id == mods[|mods| - 1].modId
        {
          if id in ModIds(mods) {
            var i :| 0 <= i < |mods| && ModIds(mods)[i] == id;
            if i < |init| {
              assert ModIds(init)[i] == id;
            }
          }
          if id in ModIds(init) {
            var i :| 0 <= i < |init| && ModIds(init)[i] == id;
            assert ModIds(mods)[i] == id;
          }
          if id == mods[|mods| - 1].modId {
            assert ModIds(mods)[|mods| - 1] == id;
          }
        }
      }
    }
  }

  /** The download the command asks for: balanced by size when some mod has a size, plain otherwise. */
  datatype DownloadRequest = Plain(ids: seq<string>) | Sized(ids: seq<string>, sizes: map<string, int>)

  function RequestFor(steam: seq<ScannedMod>): (req: DownloadRequest)
    ensures req.ids == ModIds(steam)
    ensures req.Sized? <==> SizeMap(steam) != map[]
    ensures req.Sized? ==> req.sizes == SizeMap(steam)
  {
    var sizes := SizeMap(steam);
    if sizes == map[] then Plain(ModIds(steam)) else Sized(ModIds(steam), sizes)
  }

  // ---------------------------------------------------------------
  // The answer.

  /** What the download channel yields: a mod folder, or an error text (only logged). */
  datatype Delivery = Delivered(mod: DownloadedMod) | ChannelError(message: string)

  /** An install task's result: the mod's ID and the installed path or the error. */
  datatype TaskResult = TaskResult(modId: string, outcome: Result<Path, string>)

  /** The mods the channel delivered, in order. */
  function DeliveredMods(ds: seq<Delivery>): seq<DownloadedMod>
  {
    if ds == [] then []
    else DeliveredMods(ds[..|ds| - 1]) + (if ds[|ds| - 1].Delivered? then [ds[|ds| - 1].mod] else [])
  }

  function Marked(m: ScannedMod, updated: bool): ScannedMod
  {
    m.(updated := Some(updated))
  }

  /** The task results in order: a result with no ID (a task that panicked) or an unknown ID is skipped. */
  function ResultMods(results: seq<TaskResult>, modsMap: map<string, ScannedMod>): seq<ScannedMod>
  {
    if results == [] then []
    else
      var res := results[|results| - 1];
      ResultMods(results[..|results| - 1], modsMap)
      + (if res.modId != "" && res.modId in modsMap then [Marked(modsMap[res.modId], res.outcome.Ok?)] else [])
  }

  /** `failed_download_mod_ids`: the requested IDs no delivery was installed for, in request order. */
  function Unseen(ids: seq<string>, seen: set<string>): seq<string>
  {
    if ids == [] then []
    else Unseen(ids[..|ids| - 1], seen) + (if ids[|ids| - 1] in seen then [] else [ids[|ids| - 1]])
  }

  lemma {:induction false} UnseenMembers(ids: seq<string>, seen: set<string>)
    ensures forall x :: x in Unseen(ids, seen) <==> x in ids && x !in seen
    ensures |Unseen(ids, seen)| <= |ids|
  {
    if ids != [] {
      UnseenMembers(ids[..|ids| - 1], seen);
      assert ids == ids[..|ids| - 1] + [ids[|ids| - 1]];
    }
  }

  /** The mods of the given IDs, each marked not updated. */
  function NotUpdated(ids: seq<string>, modsMap: map<string, ScannedMod>): seq<ScannedMod>
  {
    if ids == [] then []
    else
      NotUpdated(ids[..|ids| - 1], modsMap)
      + (if ids[|ids| - 1] in modsMap then [Marked(modsMap[ids[|ids| - 1]], false)] else [])
  }

  /**
   * The answer, on completion and on cancellation alike: the task
   * results in the order the tasks were started, then every requested
   * mod that was never installed, marked not updated.
   */
  function Aggregate(results: seq<TaskResult>, ids: seq<string>, seen: set<string>, modsMap: map<string, ScannedMod>)
    : seq<ScannedMod>
  {
    ResultMods(results, modsMap) + NotUpdated(Unseen(ids, seen), modsMap)
  }

  /** The results loop of the aggregation. */
  method CollectResults(results: seq<TaskResult>, modsMap: map<string, ScannedMod>) returns (out: seq<ScannedMod>)
    ensures out == ResultMods(results, modsMap)
  {
    out := [];
    for k := 0 to |results|
      invariant out == ResultMods(results[..k], modsMap)
    {
      assert results[..k + 1][..k] == results[..k];
      var res := results[k];
      if res.modId == "" {
        continue;
      }
      if res.modId in modsMap {
        out := out + [Marked(modsMap[res.modId], res.outcome.Ok?)];
      }
    }
    assert results[..|results|] == results;
  }

  /** The unseen-IDs loop, then the loop appending them. */
  method AppendUnseen(out0: seq<ScannedMod>, ids: seq<string>, seen: set<string>, modsMap: map<string, ScannedMod>)
    returns (out: seq<ScannedMod>)
    ensures out == out0 + NotUpdated(Unseen(ids, seen), modsMap)
  {
    var failed: seq<string> := [];
    for i := 0 to |ids|
      invariant failed == Unseen(ids[..i], seen)
    {
      assert ids[..i + 1][..i] == ids[..i];
      if ids[i] !in seen {
        failed := failed + [ids[i]];
      }
    }
    assert ids[..|ids|] == ids;
    out := out0;
    for j := 0 to |failed|
      invariant out == out0 + NotUpdated(failed[..j], modsMap)
    {
      assert failed[..j + 1][..j] == failed[..j];
      if failed[j] in modsMap {
        out := out + [Marked(modsMap[failed[j]], false)];
      }
    }
    assert failed[..|failed|] == failed;
  }

  method Aggregation(results: seq<TaskResult>, ids: seq<string>, seen: set<string>, modsMap: map<string, ScannedMod>)
    returns (out: seq<ScannedMod>)
    ensures out == Aggregate(results, ids, seen, modsMap)
  {
    out := CollectResults(results, modsMap);
    out := AppendUnseen(out, ids, seen, modsMap);
  }

  // ---------------------------------------------------------------
  // The receive loop.

  /** The IDs of the installs started. */
  function SpawnedIds(spawned: seq<DownloadedMod>): set<string>
  {
    set k | 0 <= k < |spawned| :: spawned[k].modId
  }

  lemma SpawnedIdsAppend(spawned: seq<DownloadedMod>, dm: DownloadedMod)
    ensures SpawnedIds(spawned + [dm]) == SpawnedIds(spawned) + {dm.modId}
  {
    var both := spawned + [dm];
    forall x | x in SpawnedIds(both)
      ensures x in SpawnedIds(spawned) + {dm.modId}
    {
      var k :| 0 <= k < |both| && both[k].modId == x;
      if k < |spawned| {
        assert spawned[k].modId == x;
      }
    }
    forall x | x in SpawnedIds(spawned) + {dm.modId}
      ensures x in SpawnedIds(both)
    {
      if x == dm.modId {
        assert both[|spawned|].modId == x;
      } else {
        var k :| 0 <= k < |spawned| && spawned[k].modId == x;
        assert both[k].modId == x;
      }
    }
  }

  /** The state of the receive loop. */
  datatype Run = Run(looks: nat, cancelled: bool, seen: set<string>, spawned: seq<DownloadedMod>,
                     results: seq<TaskResult>)

  /**
   * The installs started and their results, with `lk[k]` the look at the
   * flag that install `k`'s task makes: those looks come in order and
   * before the `looks`-th, no cancellation had arrived when an install
   * was started, and its task installs unless a cancellation has
   * arrived by its own look.
   */
  ghost predicate InstallLooks(results: seq<TaskResult>, spawned: seq<DownloadedMod>, lk: seq<nat>, looks: nat,
                               install: DownloadedMod -> Result<Path, string>, requests: nat -> bool)
  {
    && |results| == |spawned| == |lk|
    && (forall a, b :: 0 <= a < b < |lk| ==> lk[a] < lk[b])
    && (forall k :: 0 <= k < |lk| ==> lk[k] < looks && !AnyUpTo(requests, lk[k]))
    && (forall k :: 0 <= k < |results| ==>
          && results[k].modId == spawned[k].modId
          && results[k].outcome == if AnyUpTo(requests, lk[k] + 1) then Err(UpdateCancelled) else install(spawned[k]))
  }

  /**
   * What the receive loop promises about cancellation: the installs
   * started are exactly the mods delivered before some point `upTo`, so
   * nothing delivered after a skipped delivery is installed; the answer's
   * `cancelled` is whether a cancellation arrived by the last of its
   * `looks`; and the installs were started and ended as `InstallLooks`
   * says.
   */
  ghost predicate CancelSkips(ds: seq<Delivery>, install: DownloadedMod -> Result<Path, string>, requests: nat -> bool,
                              cancelled: bool, spawned: seq<DownloadedMod>, results: seq<TaskResult>,
                              upTo: nat, looks: nat, lk: seq<nat>)
  {
    && upTo <= |ds| && spawned == DeliveredMods(ds[..upTo])
    && cancelled == AnyUpTo(requests, looks)
    && InstallLooks(results, spawned, lk, looks, install, requests)
  }

  /** What the loop keeps true after the first `i` deliveries. */
  ghost predicate RunInvariant(st: Run, ds: seq<Delivery>, i: nat, from: seq<nat>, lk: seq<nat>, upTo: nat,
                               install: DownloadedMod -> Result<Path, string>,
                               requests: nat -> bool, modsMap: map<string, ScannedMod>)
  {
    && i <= |ds|
    && st.cancelled == AnyUpTo(requests, st.looks)
    && st.seen == SpawnedIds(st.spawned)
    && |st.spawned| == |from|
    && (forall k :: 0 <= k < |from| ==> from[k] < i && ds[from[k]] == Delivered(st.spawned[k]))
    && (forall k :: 0 <= k < |st.spawned| ==> st.spawned[k].modId in modsMap)
    && upTo <= i && st.spawned == DeliveredMods(ds[..upTo]) && (upTo < i ==> st.cancelled)
    && InstallLooks(st.results, st.spawned, lk, st.looks, install, requests)
  }

  /** One look at the cancel flag. */
  function Look(st: Run, requests: nat -> bool): (next: Run)
    ensures next.looks == st.looks + 1
    ensures st.cancelled == AnyUpTo(requests, st.looks) ==> next.cancelled == AnyUpTo(requests, next.looks)
  {
    st.(looks := st.looks + 1, cancelled := st.cancelled || requests(st.looks))
  }

  /** How a delivery ends: handled, or the command stops with an answer or an error. */
  datatype Step = Continue(st: Run) | Stop(st: Run, missing: Option<string>)

  /** Recording one more install, started at look `at`, keeps `InstallLooks`. */
  lemma InstallLooksAppend(results: seq<TaskResult>, spawned: seq<DownloadedMod>, lk: seq<nat>, looks: nat,
                           install: DownloadedMod -> Result<Path, string>, requests: nat -> bool,
                           dm: DownloadedMod, at: nat)
    requires InstallLooks(results, spawned, lk, looks, install, requests)
    requires looks <= at && !AnyUpTo(requests, at)
    ensures InstallLooks(results + [TaskResult(dm.modId, if AnyUpTo(requests, at + 1) then Err(UpdateCancelled) else install(dm))],
                         spawned + [dm], lk + [at], at + 1, install, requests)
  {
  }

  /**
   * Recording a delivered mod as seen and starting its install task,
   * which looks at the flag before it installs.
   */
  function StartInstall(s: Run, dm: DownloadedMod, install: DownloadedMod -> Result<Path, string>,
                        requests: nat -> bool): Run
  {
    var t := Look(s.(seen := s.seen + {dm.modId}), requests);
    t.(spawned := t.spawned + [dm],
       results := t.results + [TaskResult(dm.modId, if t.cancelled then Err(UpdateCancelled) else install(dm))])
  }

  /** A look at the flag keeps the loop's invariant. */
  lemma RunLook(st: Run, ds: seq<Delivery>, i: nat, from: seq<nat>, lk: seq<nat>, upTo: nat,
                install: DownloadedMod -> Result<Path, string>, requests: nat -> bool, modsMap: map<string, ScannedMod>)
    requires RunInvariant(st, ds, i, from, lk, upTo, install, requests, modsMap)
    ensures RunInvariant(Look(st, requests), ds, i, from, lk, upTo, install, requests, modsMap)
  {
  }

  /** Passing over a delivery before any cancellation moves the point `upTo` past it. */
  lemma RunPass(st: Run, ds: seq<Delivery>, i: nat, from: seq<nat>, lk: seq<nat>,
                install: DownloadedMod -> Result<Path, string>, requests: nat -> bool, modsMap: map<string, ScannedMod>)
    requires i < |ds| && ds[i].ChannelError? && !st.cancelled
    requires RunInvariant(st, ds, i, from, lk, i, install, requests, modsMap)
    ensures RunInvariant(st, ds, i + 1, from, lk, i + 1, install, requests, modsMap)
  {
    assert ds[..i + 1][..i] == ds[..i];
  }

  /** Skipping a delivery once a cancellation was seen leaves the point `upTo` where it was. */
  lemma RunSkip(st: Run, ds: seq<Delivery>, i: nat, from: seq<nat>, lk: seq<nat>, upTo: nat,
                install: DownloadedMod -> Result<Path, string>, requests: nat -> bool, modsMap: map<string, ScannedMod>)
    requires i < |ds| && st.cancelled
    requires RunInvariant(st, ds, i, from, lk, upTo, install, requests, modsMap)
    ensures RunInvariant(st, ds, i + 1, from, lk, upTo, install, requests, modsMap)
  {
  }

  /** Starting the install of a delivered, requested mod before any cancellation keeps the invariant. */
  lemma RunSpawn(st: Run, ds: seq<Delivery>, i: nat, from: seq<nat>, lk: seq<nat>,
                 install: DownloadedMod -> Result<Path, string>, requests: nat -> bool, modsMap: map<string, ScannedMod>)
    requires i < |ds| && ds[i].Delivered? && ds[i].mod.modId in modsMap && !st.cancelled
    requires RunInvariant(st, ds, i, from, lk, i, install, requests, modsMap)
    ensures RunInvariant(StartInstall(st, ds[i].mod, install, requests), ds, i + 1, from + [i], lk + [st.looks], i + 1,
                         install, requests, modsMap)
  {
    var dm := ds[i].mod;
    assert ds[..i + 1][..i] == ds[..i];
    SpawnedIdsAppend(st.spawned, dm);
    InstallLooksAppend(st.results, st.spawned, lk, st.looks, install, requests, dm, st.looks);
  }

  /**
   * One delivery. The flag is looked at first (a cancellation stops the
   * loop); a delivered mod is looked at again (a cancellation skips it),
   * recorded as seen, found among the requested mods (or the command
   * fails) and its install started, whose task looks at the flag once
   * more. A channel error is only logged, whether it is a cancellation
   * or not.
   */
  method HandleDelivery(st: Run, ds: seq<Delivery>, i: nat, ghost from: seq<nat>, ghost lk: seq<nat>, ghost upTo: nat,
                        install: DownloadedMod -> Result<Path, string>, requests: nat -> bool,
                        modsMap: map<string, ScannedMod>)
    returns (step: Step, ghost from': seq<nat>, ghost lk': seq<nat>, ghost upTo': nat)
    requires i < |ds| && RunInvariant(st, ds, i, from, lk, upTo, install, requests, modsMap)
    ensures step.Continue? ==> RunInvariant(step.st, ds, i + 1, from', lk', upTo', install, requests, modsMap)
    ensures step.Stop? ==> RunInvariant(step.st, ds, i, from', lk', upTo', install, requests, modsMap)
    // A cancellation seen at the first look stops the loop; nothing is started.
    ensures AnyUpTo(requests, st.looks + 1) ==>
              step.Stop? && step.missing.None? && step.st.cancelled && step.st.spawned == st.spawned
    // A channel error is passed over.
    ensures !AnyUpTo(requests, st.looks + 1) && ds[i].ChannelError? ==>
              step.Continue? && step.st.spawned == st.spawned && step.st.results == st.results
    // A cancellation seen at the second look skips the delivered mod.
    ensures !AnyUpTo(requests, st.looks + 1) && ds[i].Delivered? && AnyUpTo(requests, st.looks + 2) ==>
              step.Continue? && step.st.cancelled && step.st.spawned == st.spawned && step.st.results == st.results
    // Otherwise the mod is looked up: an unknown one fails the command, a known one's install starts.
    ensures !AnyUpTo(requests, st.looks + 2) && ds[i].Delivered? && ds[i].mod.modId !in modsMap ==>
              step == Stop(step.st, Some(ds[i].mod.modId)) && step.st.spawned == st.spawned
    ensures !AnyUpTo(requests, st.looks + 2) && ds[i].Delivered? && ds[i].mod.modId in modsMap ==>
              && step.Continue?
              && step.st.spawned == st.spawned + [ds[i].mod]
              && step.st.results == st.results + [TaskResult(ds[i].mod.modId,
                   if AnyUpTo(requests, st.looks + 3) then Err(UpdateCancelled) else install(ds[i].mod))]
  {
    from', lk', upTo' := from, lk, upTo;
    var s := Look(st, requests);
    RunLook(st, ds, i, from, lk, upTo, install, requests, modsMap);
    if s.cancelled {
      return Stop(s, None), from', lk', upTo';
    }
    match ds[i]
    case ChannelError(_) =>
      RunPass(s, ds, i, from, lk, install, requests, modsMap);
      upTo' := i + 1;
      return Continue(s), from', lk', upTo';
    case Delivered(dm) =>
      var s2 := Look(s, requests);
      RunLook(s, ds, i, from, lk, upTo, install, requests, modsMap);
      if s2.cancelled {
        RunSkip(s2, ds, i, from, lk, upTo, install, requests, modsMap);
        return Continue(s2), from', lk', upTo';
      }
      // The ID is recorded as seen before the lookup; on a failed lookup
      // the command answers with an error and the record is dropped.
      if dm.modId !in modsMap {
        return Stop(s2, Some(dm.modId)), from', lk', upTo';
      }
      RunSpawn(s2, ds, i, from, lk, install, requests, modsMap);
      from', lk', upTo' := from + [i], lk + [s2.looks], i + 1;
      return Continue(StartInstall(s2, dm, install, requests)), from', lk', upTo';
  }

  /** What the invariant gives once the loop ends. */
  lemma RunFinish(st: Run, ds: seq<Delivery>, i: nat, from: seq<nat>, lk: seq<nat>, upTo: nat,
                  install: DownloadedMod -> Result<Path, string>, requests: nat -> bool, modsMap: map<string, ScannedMod>)
    requires RunInvariant(st, ds, i, from, lk, upTo, install, requests, modsMap)
    ensures CancelSkips(ds, install, requests, st.cancelled, st.spawned, st.results, upTo, st.looks, lk)
    ensures forall k :: 0 <= k < |st.spawned| ==> Delivered(st.spawned[k]) in ds
  {
    forall k | 0 <= k < |st.spawned|
      ensures Delivered(st.spawned[k]) in ds
    {
      assert ds[from[k]] == Delivered(st.spawned[k]);
    }
  }

  /** Every mod the channel delivers is one of the requested mods. */
  predicate AllRequested(ds: seq<Delivery>, modsMap: map<string, ScannedMod>)
  {
    forall j :: 0 <= j < |ds| && ds[j].Delivered? ==> ds[j].mod.modId in modsMap
  }

  /**
   * The receive loop and the aggregation: on an Ok answer it is the
   * aggregation of the started installs; the installs started are the
   * mods delivered up to the point `upTo` where a cancellation made the
   * loop skip or stop, in delivery order, each with its install outcome
   * or "cancelled" as its own look found; a cancellation is reported
   * exactly when one of the `looks` found it; and an unknown delivered
   * ID fails the command.
   */
  method ReceiveAndAggregate(ids: seq<string>, modsMap: map<string, ScannedMod>, ds: seq<Delivery>,
                             install: DownloadedMod -> Result<Path, string>, requests: nat -> bool)
    returns (r: Result<seq<ScannedMod>, CommandError>, cancelled: bool, ghost spawned: seq<DownloadedMod>,
             ghost results: seq<TaskResult>, ghost upTo: nat, ghost looks: nat, ghost lk: seq<nat>)
    ensures r.Ok? ==> r.value == Aggregate(results, ids, SpawnedIds(spawned), modsMap)
    ensures CancelSkips(ds, install, requests, cancelled, spawned, results, upTo, looks, lk)
    ensures r.Ok? && upTo < |ds| ==> cancelled
    ensures forall k :: 0 <= k < |spawned| ==> Delivered(spawned[k]) in ds
    ensures r.Err? ==> exists j :: 0 <= j < |ds| && ds[j].Delivered? && ds[j].mod.modId !in modsMap
                                   && r.error == Message(OriginalMissing + ds[j].mod.modId)
    ensures AllRequested(ds, modsMap) ==> r.Ok?
  {
    var st := Run(0, false, {}, [], []);
    ghost var from: seq<nat> := [];
    lk, upTo := [], 0;
    var i := 0;
    var stoppedEarly := false;
    while i < |ds|
      invariant RunInvariant(st, ds, i, from, lk, upTo, install, requests, modsMap)
    {
      var step;
      step, from, lk, upTo := HandleDelivery(st, ds, i, from, lk, upTo, install, requests, modsMap);
      if step.Stop? {
        st := step.st;
        if step.missing.Some? {
          RunFinish(st, ds, i, from, lk, upTo, install, requests, modsMap);
          return Err(Message(OriginalMissing + step.missing.value)), st.cancelled, st.spawned, st.results,
                 upTo, st.looks, lk;
        }
        stoppedEarly := true;
        break;
      }
      st := step.st;
      i := i + 1;
    }
    if !stoppedEarly {
      RunLook(st, ds, i, from, lk, upTo, install, requests, modsMap);
      st := Look(st, requests);
    }
    RunFinish(st, ds, i, from, lk, upTo, install, requests, modsMap);
    var out := Aggregation(st.results, ids, st.seen, modsMap);
    return Ok(out), st.cancelled, st.spawned, st.results, upTo, st.looks, lk;
  }

  /** Once a look has found a cancellation, every later look finds it too. */
  lemma {:induction false} AnyUpToGrows(requests: nat -> bool, a: nat, b: nat)
    requires a <= b && AnyUpTo(requests, a)
    ensures AnyUpTo(requests, b)
  {
    if a < b {
      AnyUpToGrows(requests, a, b - 1);
    }
  }

  /**
   * Under `CancelSkips`, only the last install started can end
   * cancelled; every earlier one ran the installer. Without any
   * cancellation every install ran the installer.
   */
  lemma OnlyLastInstallCancelled(ds: seq<Delivery>, install: DownloadedMod -> Result<Path, string>, requests: nat -> bool,
                                 cancelled: bool, spawned: seq<DownloadedMod>, results: seq<TaskResult>,
                                 upTo: nat, looks: nat, lk: seq<nat>)
    requires CancelSkips(ds, install, requests, cancelled, spawned, results, upTo, looks, lk)
    ensures forall k :: 0 <= k < |results| - 1 ==> results[k].outcome == install(spawned[k])
    ensures forall k :: 0 <= k < |results| ==>
              results[k].outcome == install(spawned[k]) || results[k].outcome == Err(UpdateCancelled)
    ensures !cancelled ==> forall k :: 0 <= k < |results| ==> results[k].outcome == install(spawned[k])
  {
    forall k | 0 <= k < |results| - 1
      ensures results[k].outcome == install(spawned[k])
    {
      assert lk[k] < lk[k + 1];
      if AnyUpTo(requests, lk[k] + 1) {
        AnyUpToGrows(requests, lk[k] + 1, lk[k + 1]);
      }
    }
    if !cancelled {
      forall k | 0 <= k < |results|
        ensures results[k].outcome == install(spawned[k])
      {
        if AnyUpTo(requests, lk[k] + 1) {
          AnyUpToGrows(requests, lk[k] + 1, looks);
        }
      }
    }
  }

  /** With no cancellation requested at all, none is reported. */
  lemma NoRequestNoCancel(ds: seq<Delivery>, install: DownloadedMod -> Result<Path, string>, requests: nat -> bool,
                          cancelled: bool, spawned: seq<DownloadedMod>, results: seq<TaskResult>,
                          upTo: nat, looks: nat, lk: seq<nat>)
    requires CancelSkips(ds, install, requests, cancelled, spawned, results, upTo, looks, lk)
    requires forall n :: !requests(n)
    ensures !cancelled
  {
    NeverRequested(requests, looks);
  }

  // ---------------------------------------------------------------
  // What the answer means.

  /** Every mod of the map is filed under its own ID. */
  ghost predicate KeyedById(modsMap: map<string, ScannedMod>)
  {
    forall id :: id in modsMap ==> modsMap[id].modId == id
  }

  lemma ModsByIdKeyed(mods: seq<ScannedMod>)
    ensures KeyedById(ModsById(mods))
  {
    ModsByIdKeys(mods);
  }

  /** The task part of the answer: one marked mod per result with a known ID, flagged by the result. */
  lemma {:induction false} ResultModsMeaning(results: seq<TaskResult>, modsMap: map<string, ScannedMod>)
    ensures forall m :: m in ResultMods(results, modsMap) ==>
              exists k :: 0 <= k < |results| && results[k].modId != "" && results[k].modId in modsMap
                          && m == Marked(modsMap[results[k].modId], results[k].outcome.Ok?)
    ensures forall k :: 0 <= k < |results| && results[k].modId != "" && results[k].modId in modsMap ==>
              Marked(modsMap[results[k].modId], results[k].outcome.Ok?) in ResultMods(results, modsMap)
  {
    if results != [] {
      var init := results[..|results| - 1];
      ResultModsMeaning(init, modsMap);
      assert forall k :: 0 <= k < |init| ==> init[k] == results[k];
    }
  }

  /** The download part of the answer: the mods of the given IDs, each marked not updated. */
  lemma {:induction false} NotUpdatedMeaning(ids: seq<string>, modsMap: map<string, ScannedMod>)
    ensures forall m :: m in NotUpdated(ids, modsMap) <==>
              exists i :: 0 <= i < |ids| && ids[i] in modsMap && m == Marked(modsMap[ids[i]], false)
  {
    if ids != [] {
      var init := ids[..|ids| - 1];
      NotUpdatedMeaning(init, modsMap);
      assert forall i :: 0 <= i < |init| ==> init[i] == ids[i];
    }
  }

  /**
   * The answer, whether the update completed or was cancelled: each mod
   * in it is a requested mod with only its `updated` flag set; a mod is
   * marked updated only when an install of it succeeded; every install
   * result with a known ID is reported with its outcome; and every
   * requested mod that was never installed is reported not updated.
   */
  lemma AggregateMeaning(results: seq<TaskResult>, ids: seq<string>, seen: set<string>,
                         modsMap: map<string, ScannedMod>)
    requires KeyedById(modsMap)
    ensures forall m :: m in Aggregate(results, ids, seen, modsMap) ==>
              && m.modId in modsMap && m.updated.Some?
              && m == Marked(modsMap[m.modId], m.updated.value)
    ensures forall m :: m in Aggregate(results, ids, seen, modsMap) && m.updated == Some(true) ==>
              exists k :: 0 <= k < |results| && results[k].modId == m.modId && results[k].outcome.Ok?
    ensures forall k :: 0 <= k < |results| && results[k].modId != "" && results[k].modId in modsMap ==>
              Marked(modsMap[results[k].modId], results[k].outcome.Ok?) in Aggregate(results, ids, seen, modsMap)
    ensures forall id :: id in ids && id in modsMap && id !in seen ==>
              Marked(modsMap[id], false) in Aggregate(results, ids, seen, modsMap)
  {
    var done := ResultMods(results, modsMap);
    var failed := Unseen(ids, seen);
    ResultModsMeaning(results, modsMap);
    NotUpdatedMeaning(failed, modsMap);
    UnseenMembers(ids, seen);
    forall id | id in ids && id in modsMap && id !in seen
      ensures Marked(modsMap[id], false) in Aggregate(results, ids, seen, modsMap)
    {
      assert id in failed;
      var i :| 0 <= i < |failed| && failed[i] == id;
      assert Marked(modsMap[id], false) in NotUpdated(failed, modsMap);
    }
  }

  /**
   * When the answer is built from the steam mods themselves, every one
   * of them with an ID is answered for: by the result of its install
   * when one was started, else as not updated.
   */
  lemma EveryModAnswered(steam: seq<ScannedMod>, results: seq<TaskResult>, spawned: seq<DownloadedMod>)
    requires |results| == |spawned|
    requires forall k :: 0 <= k < |results| ==> results[k].modId == spawned[k].modId
    ensures forall m :: m in steam && m.modId != "" ==>
              exists a :: a in Aggregate(results, ModIds(steam), SpawnedIds(spawned), ModsById(steam)) && a.modId == m.modId
  {
    var modsMap := ModsById(steam);
    ModsByIdKeys(steam);
    AggregateMeaning(results, ModIds(steam), SpawnedIds(spawned), modsMap);
    forall m | m in steam && m.modId != ""
      ensures exists a :: a in Aggregate(results, ModIds(steam), SpawnedIds(spawned), modsMap) && a.modId == m.modId
    {
      var i :| 0 <= i < |steam| && steam[i] == m;
      assert ModIds(steam)[i] == m.modId;
      if m.modId in SpawnedIds(spawned) {
        var k :| 0 <= k < |spawned| && spawned[k].modId == m.modId;
        assert results[k].modId == m.modId;
        assert Marked(modsMap[m.modId], results[k].outcome.Ok?).modId == m.modId;
      } else {
        assert Marked(modsMap[m.modId], false).modId == m.modId;
      }
    }
  }

  // ---------------------------------------------------------------
  // The command.

  /**
   * The checks before any download, in order: some mods are given, some
   * of them come from the Workshop, and the first of those has a parent
   * folder, which is the mods folder.
   */
  function ModsFolder(mods: seq<ScannedMod>): (r: Result<Path, CommandError>)
    ensures mods == [] ==> r == Err(Message(NoModsGiven))
    ensures mods != [] && SteamOnly(mods) == [] ==> r == Err(Message(NoSteamMods))
    ensures SteamOnly(mods) != [] && SteamOnly(mods)[0].modPath == [] ==> r == Err(Message(NoModsPath))
    ensures r.Ok? <==> SteamOnly(mods) != [] && SteamOnly(mods)[0].modPath != []
    ensures r.Ok? ==>
              var modPath := SteamOnly(mods)[0].modPath;
              r.value + [modPath[|modPath| - 1]] == modPath
  {
    if mods == [] then Err(Message(NoModsGiven))
    else
      var steam := SteamOnly(mods);
      if steam == [] then Err(Message(NoSteamMods))
      else
        SplitModPath(steam[0].modPath);
        var modsPath := GetModsPathFromModPath(steam[0].modPath);
        if modsPath.Err? then Err(Message(modsPath.error)) else Ok(modsPath.value)
  }

  /** What the checks before the download leave: the tree, the mods folder or the error, the access event. */
  datatype Prepared = Prepared(tree: Tree, result: Result<Path, CommandError>, event: Option<AccessEvent>)

  /** The checks, then the access check on the mods folder, whose refusal fails the command. */
  function PrepareSpec(t: Tree, mods: seq<ScannedMod>, perms: Permissions): (p: Prepared)
    ensures ModsFolder(mods).Err? ==> p == Prepared(t, Err(ModsFolder(mods).error), None)
    ensures ModsFolder(mods).Ok? ==>
              var modsPath := ModsFolder(mods).value;
              var c := AccessSpec(t, modsPath, perms);
              && p.tree == c.tree
              && (c.result.Err? ==>
                    p.result == Err(Denied(NoAccess(c.result.error))) && p.event == Some(EventOf(PathText(modsPath), c.result.error)))
              && (c.result.Ok? ==> p.result == Ok(modsPath) && p.event == None)
  {
    var folder := ModsFolder(mods);
    if folder.Err? then Prepared(t, Err(folder.error), None)
    else
      var c := AccessSpec(t, folder.value, perms);
      if c.result.Err? then
        Prepared(c.tree, Err(Denied(NoAccess(c.result.error))), Some(EventOf(PathText(folder.value), c.result.error)))
      else Prepared(c.tree, Ok(folder.value), None)
  }

  /** The checks, on the file system. */
  method Prepare(fs: Fs, mods: seq<ScannedMod>, perms: Permissions)
    returns (r: Result<Path, CommandError>, event: Option<AccessEvent>)
    requires fs.Valid()
    modifies fs
    ensures fs.Valid()
    ensures var pre := PrepareSpec(old(fs.tree), mods, perms);
            fs.tree == pre.tree && r == pre.result && event == pre.event
  {
    var folder := ModsFolder(mods);
    if folder.Err? {
      return Err(folder.error), None;
    }
    var access;
    access, event := EnsureDirectoryAccess(fs, folder.value, PathText(folder.value), perms);
    if access.Err? {
      return Err(Denied(access.error)), event;
    }
    r := Ok(folder.value);
  }

  /**
   * The download and the installs: the download is asked for the
   * Workshop mods (balanced by size when sizes are known); if it starts,
   * its deliveries are received and installed and the answer aggregated.
   */
  method DownloadAndInstall(steam: seq<ScannedMod>, download: DownloadRequest -> Result<seq<Delivery>, string>,
                            install: DownloadedMod -> Result<Path, string>, requests: nat -> bool)
    returns (r: Result<seq<ScannedMod>, CommandError>, cancelled: bool,
             ghost spawned: seq<DownloadedMod>, ghost results: seq<TaskResult>,
             ghost upTo: nat, ghost looks: nat, ghost lk: seq<nat>)
    ensures var dl := download(RequestFor(steam));
            && (dl.Err? ==> r == Err(Message(DownloadFailed + dl.error)) && spawned == [] && !cancelled)
            && (dl.Ok? ==>
                  && (r.Ok? ==> r.value == Aggregate(results, ModIds(steam), SpawnedIds(spawned), ModsById(steam)))
                  && (AllRequested(dl.value, ModsById(steam)) ==> r.Ok?)
                  && (r.Err? ==> exists j :: 0 <= j < |dl.value| && dl.value[j].Delivered?
                                            && dl.value[j].mod.modId !in ModsById(steam)
                                            && r.error == Message(OriginalMissing + dl.value[j].mod.modId))
                  && CancelSkips(dl.value, install, requests, cancelled, spawned, results, upTo, looks, lk)
                  && (r.Ok? && upTo < |dl.value| ==> cancelled)
                  && (r.Ok? && !cancelled ==> spawned == DeliveredMods(dl.value)))
    ensures |results| == |spawned|
    ensures forall k :: 0 <= k < |results| ==>
              && results[k].modId == spawned[k].modId
              && (results[k].outcome == install(spawned[k]) || results[k].outcome == Err(UpdateCancelled))
    ensures forall k :: 0 <= k < |results| - 1 ==> results[k].outcome == install(spawned[k])
    ensures !cancelled ==> forall k :: 0 <= k < |results| ==> results[k].outcome == install(spawned[k])
    ensures (forall n :: !requests(n)) ==> !cancelled
  {
    spawned, results, cancelled, upTo, looks, lk := [], [], false, 0, 0, [];
    var dl := download(RequestFor(steam));
    if dl.Err? {
      return Err(Message(DownloadFailed + dl.error)), cancelled, spawned, results, upTo, looks, lk;
    }
    r, cancelled, spawned, results, upTo, looks, lk :=
      ReceiveAndAggregate(ModIds(steam), ModsById(steam), dl.value, install, requests);
    OnlyLastInstallCancelled(dl.value, install, requests, cancelled, spawned, results, upTo, looks, lk);
    if (forall n :: !requests(n)) {
      NoRequestNoCancel(dl.value, install, requests, cancelled, spawned, results, upTo, looks, lk);
    }
    if r.Ok? && !cancelled {
      assert dl.value[..|dl.value|] == dl.value;
    }
  }

  /**
   * What `update_mods` answers, from the tree `t0` it starts on, given
   * what the download, the installs and the cancel flag do: the tree
   * `t1` it leaves, the answer `r`, whether a look at the flag found a
   * cancellation, the access event, and the installs started
   * (`spawned`) with their results.
   */
  ghost predicate UpdateOutcome(t0: Tree, t1: Tree, mods: seq<ScannedMod>, perms: Permissions,
                                download: DownloadRequest -> Result<seq<Delivery>, string>,
                                install: DownloadedMod -> Result<Path, string>, requests: nat -> bool,
                                r: Result<seq<ScannedMod>, CommandError>, cancelled: bool, event: Option<AccessEvent>,
                                spawned: seq<DownloadedMod>, results: seq<TaskResult>,
                                upTo: nat, looks: nat, lk: seq<nat>)
  {
    var pre := PrepareSpec(t0, mods, perms);
    && t1 == pre.tree && event == pre.event
    && (pre.result.Err? ==> r == Err(pre.result.error))
    && (pre.result.Ok? ==>
          var steam := SteamOnly(mods);
          var dl := download(RequestFor(steam));
          && (dl.Err? ==> r == Err(Message(DownloadFailed + dl.error)))
          && (dl.Ok? ==>
                && (r.Ok? ==> r.value == Aggregate(results, ModIds(steam), SpawnedIds(spawned), ModsById(steam)))
                && (AllRequested(dl.value, ModsById(steam)) ==> r.Ok?)
                && (r.Err? ==> exists j :: 0 <= j < |dl.value| && dl.value[j].Delivered?
                                          && dl.value[j].mod.modId !in ModsById(steam)
                                          && r.error == Message(OriginalMissing + dl.value[j].mod.modId))
                && CancelSkips(dl.value, install, requests, cancelled, spawned, results, upTo, looks, lk)
                && (r.Ok? && upTo < |dl.value| ==> cancelled)
                && (r.Ok? && !cancelled ==> spawned == DeliveredMods(dl.value))))
    && (pre.result.Err? ==> spawned == [] && !cancelled)
    && |results| == |spawned|
    && (forall k :: 0 <= k < |results| ==>
          && results[k].modId == spawned[k].modId
          && (results[k].outcome == install(spawned[k]) || results[k].outcome == Err(UpdateCancelled)))
    && (forall k :: 0 <= k < |results| - 1 ==> results[k].outcome == install(spawned[k]))
    && (!cancelled ==> forall k :: 0 <= k < |results| ==> results[k].outcome == install(spawned[k]))
    && ((forall n :: !requests(n)) ==> !cancelled)
  }

  /**
   * `update_mods`. The shared cancel flag is reset once the input is
   * known to be non-empty; `requests(n)` tells whether a cancellation
   * (`CancelFlag.Cancel` from another command) has arrived by the n-th
   * look at the flag during the run. `download` answers a download
   * request with the deliveries of its channel, or the error that
   * stopped it from starting, and `install` gives each delivered mod's
   * install outcome. A cancellation one of the looks saw is left
   * raised in the flag afterwards.
   */
  method UpdateMods(fs: Fs, flag: CancelFlag, mods: seq<ScannedMod>, perms: Permissions,
                    download: DownloadRequest -> Result<seq<Delivery>, string>,
                    install: DownloadedMod -> Result<Path, string>, requests: nat -> bool)
    returns (r: Result<seq<ScannedMod>, CommandError>, cancelled: bool, event: Option<AccessEvent>,
             ghost spawned: seq<DownloadedMod>, ghost results: seq<TaskResult>,
             ghost upTo: nat, ghost looks: nat, ghost lk: seq<nat>)
    requires fs.Valid()
    modifies fs, flag
    ensures fs.Valid()
    ensures flag.cancelled == if mods == [] then old(flag.cancelled) else cancelled
    ensures UpdateOutcome(old(fs.tree), fs.tree, mods, perms, download, install, requests,
                          r, cancelled, event, spawned, results, upTo, looks, lk)
  {
    if mods != [] {
      flag.Reset();
    }
    spawned, results, cancelled, upTo, looks, lk := [], [], false, 0, 0, [];
    var modsPath;
    modsPath, event := Prepare(fs, mods, perms);
    if modsPath.Err? {
      return Err(modsPath.error), cancelled, event, spawned, results, upTo, looks, lk;
    }
    r, cancelled, spawned, results, upTo, looks, lk := DownloadAndInstall(SteamOnly(mods), download, install, requests);
    if cancelled {
      flag.Cancel();
    }
  }
}
