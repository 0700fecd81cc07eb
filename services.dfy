// The helpers the backend's command handlers share: checking and
// splitting paths, finding every folder of a mod, fetching update times
// in batches of 50 and writing the timestamp marker files.

module Services {
  import opened Common
  import opened FileSystem
  import opened ModQuery
  import opened WorkshopClient
  import opened ModManager

  // ---------------------------------------------------------------
  // Paths.

  /** `validate_mods_path`: a missing path is reported before one that is not a directory. */
  function ValidateModsPath(t: Tree, path: Path): (r: Result<Path, string>)
    ensures r.Ok? <==> IsDir(t, path)
    ensures r.Ok? ==> r.value == path
    ensures r == Err(MissingModsPath) <==> path !in t
    ensures r == Err(ModsPathNotDir) <==> IsFile(t, path)
  {
    if path !in t then Err(MissingModsPath)
    else if !IsDir(t, path) then Err(ModsPathNotDir)
    else Ok(path)
  }

  const InvalidModPath := "Invalid mod path"
  const NoModsPath := "Cannot get mods path from mod path"

  /** `extract_folder_name`: the last component of the path. */
  function ExtractFolderName(modPath: Path): (r: Result<string, string>)
    ensures r.Err? <==> modPath == []
    ensures r.Err? ==> r.error == InvalidModPath
    ensures r.Ok? ==> r.value == modPath[|modPath| - 1]
  {
    var name := FileName(modPath);
    if name.None? then Err(InvalidModPath) else Ok(name.value)
  }

  /** `get_mods_path_from_mod_path`: the parent directory. */
  function GetModsPathFromModPath(modPath: Path): (r: Result<Path, string>)
    ensures r.Err? <==> modPath == []
    ensures r.Err? ==> r.error == NoModsPath
    ensures r.Ok? ==> |r.value| + 1 == |modPath| && IsPrefix(r.value, modPath)
  {
    var parent := Parent(modPath);
    if parent.None? then Err(NoModsPath) else Ok(parent.value)
  }

  /** The two helpers split a mod path into the mods folder and the folder name, and joining them gives it back. */
  lemma SplitModPath(modPath: Path)
    ensures GetModsPathFromModPath(modPath).Ok? <==> ExtractFolderName(modPath).Ok?
    ensures modPath != [] ==>
              GetModsPathFromModPath(modPath).value + [ExtractFolderName(modPath).value] == modPath
  {
    if modPath != [] {
      ParentFileName(modPath);
    }
  }

  // ---------------------------------------------------------------
  // Every folder of a mod.

  /** The sub-directories of `modsPath` whose `PublishedFileId.txt` names `modId`. */
  function ModFoldersWithId(t: Tree, modsPath: Path, modId: string): set<Path>
  {
    set n | n in ChildNames(t, modsPath) && HoldsMod(t, modsPath + [n], modId) :: modsPath + [n]
  }

  /** A folder `find_existing_mod_folder` may answer is one of the folders found here, and there is one exactly when some exists. */
  lemma ModFoldersWithIdShape(t: Tree, modsPath: Path, modId: string)
    ensures HasModFolder(t, modsPath, modId) <==> ModFoldersWithId(t, modsPath, modId) != {}
    ensures forall q :: q in ModFoldersWithId(t, modsPath, modId) ==>
              |q| == |modsPath| + 1 && IsPrefix(modsPath, q) && HoldsMod(t, q, modId)
  {
    if ModFoldersWithId(t, modsPath, modId) != {} {
      var q :| q in ModFoldersWithId(t, modsPath, modId);
      var n :| n in ChildNames(t, modsPath) && HoldsMod(t, modsPath + [n], modId) && q == modsPath + [n];
    }
    if HasModFolder(t, modsPath, modId) {
      var n :| n in ChildNames(t, modsPath) && HoldsMod(t, modsPath + [n], modId);
      assert modsPath + [n] in ModFoldersWithId(t, modsPath, modId);
    }
  }

  /** A listed name whose folder holds the mod gives a folder of the set, and the name is its last part. */
  lemma FolderOfName(t: Tree, modsPath: Path, modId: string, n: string)
    requires n in ChildNames(t, modsPath) && HoldsMod(t, modsPath + [n], modId)
    ensures modsPath + [n] in ModFoldersWithId(t, modsPath, modId) && (modsPath + [n])[|modsPath|] == n
  {
  }

  /**
   * `find_all_mod_folders_with_id`: list `modsPath` (an error when it
   * is not a directory) and keep every sub-directory holding `modId`,
   * once each, in the unspecified listing order.
   */
  method FindAllModFoldersWithId(t: Tree, modsPath: Path, modId: string) returns (r: Result<seq<Path>, string>)
    ensures r.Err? <==> !IsDir(t, modsPath)
    ensures r.Ok? ==> NoDuplicates(r.value)
    ensures r.Ok? ==> forall q :: q in r.value <==> q in ModFoldersWithId(t, modsPath, modId)
  {
    if !IsDir(t, modsPath) {
      return Err("Failed to read mods directory");
    }
    var names := ChildNames(t, modsPath);
    var folders: seq<Path> := [];
    while names != {}
      invariant names <= ChildNames(t, modsPath)
      invariant NoDuplicates(folders)
      invariant forall q :: q in folders ==> q in ModFoldersWithId(t, modsPath, modId) && q[|modsPath|] !in names
      invariant forall n :: n in ChildNames(t, modsPath) && n !in names && HoldsMod(t, modsPath + [n], modId) ==>
                  modsPath + [n] in folders
      decreases names
    {
      var n :| n in names;
      if HoldsMod(t, modsPath + [n], modId) {
        FolderOfName(t, modsPath, modId, n);
        folders := folders + [modsPath + [n]];
      }
      names := names - {n};
    }
    return Ok(folders);
  }

  // ---------------------------------------------------------------
  // Update times, 50 mods per request.

  /** The IDs of batch `b`: a contiguous slice of at most 50. */
  function BatchSlice(ids: seq<string>, b: nat): seq<string>
    requires b * BatchCount <= |ids|
  {
    ids[b * BatchCount..BatchEnd(b, |ids|)]
  }

  /**
   * The batches cover the list in order: there are ceil(n / 50) of
   * them, none empty and none longer than 50, and item `i` is item
   * `i % 50` of batch `i / 50`.
   */
  lemma BatchSlices(ids: seq<string>)
    ensures |ids| > 0 ==> (NumBatches(|ids|) - 1) * BatchCount < |ids| <= NumBatches(|ids|) * BatchCount
    ensures forall b :: 0 <= b < NumBatches(|ids|) ==>
              b * BatchCount <= |ids| && 0 < |BatchSlice(ids, b)| <= BatchCount
    ensures forall i :: 0 <= i < |ids| ==>
              (i / BatchCount) * BatchCount <= |ids| && i % BatchCount < |BatchSlice(ids, i / BatchCount)|
              && BatchSlice(ids, i / BatchCount)[i % BatchCount] == ids[i]
  {
    forall b | 0 <= b < NumBatches(|ids|)
      ensures b * BatchCount <= |ids| && 0 < |BatchSlice(ids, b)| <= BatchCount
    {
      BatchStartsInside(b, |ids|);
    }
    forall i | 0 <= i < |ids|
      ensures (i / BatchCount) * BatchCount <= |ids| && i % BatchCount < |BatchSlice(ids, i / BatchCount)|
              && BatchSlice(ids, i / BatchCount)[i % BatchCount] == ids[i]
    {
      BatchOfIndex(i, |ids|);
    }
  }

  /** The times of a batch answer, keyed by `publishedfileid`, a later detail replacing an earlier one. */
  function TimesOf(ds: seq<Details>): map<string, int>
  {
    if ds == [] then map[] else TimesOf(ds[..|ds| - 1])[ds[|ds| - 1].publishedfileid := ds[|ds| - 1].timeUpdated]
  }

  /** The time of each ID is that of the detail `DetailsMap` keeps for it, so the keys are the IDs answered. */
  lemma {:induction false} TimesOfDetails(ds: seq<Details>)
    ensures TimesOf(ds).Keys == DetailsMap(ds).Keys
    ensures forall k :: k in TimesOf(ds) ==> TimesOf(ds)[k] == DetailsMap(ds)[k].timeUpdated
    ensures forall k :: k in TimesOf(ds) <==> exists i :: 0 <= i < |ds| && ds[i].publishedfileid == k
  {
    if ds != [] {
      var init := ds[..|ds| - 1];
      TimesOfDetails(init);
      forall k | k in TimesOf(ds)
        ensures exists i :: 0 <= i < |ds| && ds[i].publishedfileid == k
      {
        if k != ds[|ds| - 1].publishedfileid {
          var i :| 0 <= i < |init| && init[i].publishedfileid == k;
          assert ds[i] == init[i];
        }
      }
      forall k | exists i :: 0 <= i < |ds| && ds[i].publishedfileid == k
        ensures k in TimesOf(ds)
      {
        var i :| 0 <= i < |ds| && ds[i].publishedfileid == k;
        if i < |init| {
          assert init[i] == ds[i];
        }
      }
    }
  }

  /** The time used for an ID whose own request answered `r`: its `time_updated`, or the current time. */
  function TimeOr(r: Result<Details, SteamError>, now: int): int
  {
    if r.Ok? then r.value.timeUpdated else now
  }

  /** The fallback of a failed batch: each ID with its own request's time, or the current time. */
  function FallbackTimes(batch: seq<string>, single: string -> Result<Details, SteamError>, now: int): map<string, int>
  {
    if batch == [] then map[]
    else FallbackTimes(batch[..|batch| - 1], single, now)[batch[|batch| - 1] := TimeOr(single(batch[|batch| - 1]), now)]
  }

  /** The fallback gives every ID of the batch, and only those, its own time or the current time. */
  lemma {:induction false} FallbackTimesCover(batch: seq<string>, single: string -> Result<Details, SteamError>, now: int)
    ensures forall id :: id in FallbackTimes(batch, single, now) <==> id in batch
    ensures forall id :: id in FallbackTimes(batch, single, now) ==> FallbackTimes(batch, single, now)[id] == TimeOr(single(id), now)
  {
    if batch != [] {
      var init := batch[..|batch| - 1];
      FallbackTimesCover(init, single, now);
      assert batch == init + [batch[|batch| - 1]];
    }
  }

  /** What one batch contributes: the batch answer's times, or the fallback when the batch query failed. */
  function BatchTimes(batch: seq<string>, query: BatchQuery, single: string -> Result<Details, SteamError>, now: int)
    : map<string, int>
  {
    if query(batch).Ok? then TimesOf(query(batch).value) else FallbackTimes(batch, single, now)
  }

  /** The map after the first `k` batches have been merged in order, a later batch overriding an earlier one. */
  function TimesUpTo(ids: seq<string>, k: nat, query: BatchQuery, single: string -> Result<Details, SteamError>, now: int)
    : map<string, int>
    requires k <= NumBatches(|ids|)
  {
    if k == 0 then map[]
    else
      BatchStartsInside(k - 1, |ids|);
      TimesUpTo(ids, k - 1, query, single, now) + BatchTimes(BatchSlice(ids, k - 1), query, single, now)
  }

  /** The details-to-map loop of a successful batch. */
  method CollectTimes(ds: seq<Details>) returns (m: map<string, int>)
    ensures m == TimesOf(ds)
  {
    m := map[];
    for i := 0 to |ds|
      invariant m == TimesOf(ds[..i])
    {
      assert ds[..i + 1][..i] == ds[..i];
      m := m[ds[i].publishedfileid := ds[i].timeUpdated];
    }
    assert ds[..|ds|] == ds;
  }

  /** One batch's task: the batch query, or each ID on its own when it fails. */
  method FetchBatchTimes(batch: seq<string>, query: BatchQuery, single: string -> Result<Details, SteamError>, now: int)
    returns (m: map<string, int>)
    ensures m == BatchTimes(batch, query, single, now)
  {
    var answer := query(batch);
    if answer.Ok? {
      m := CollectTimes(answer.value);
      return;
    }
    m := map[];
    for i := 0 to |batch|
      invariant m == FallbackTimes(batch[..i], single, now)
    {
      assert batch[..i + 1][..i] == batch[..i];
      var details := single(batch[i]);
      if details.Ok? {
        m := m[batch[i] := details.value.timeUpdated];
      } else {
        m := m[batch[i] := now];
      }
    }
    assert batch[..|batch|] == batch;
  }

  /**
   * `fetch_mod_times_updated`: nothing for no IDs; otherwise each
   * batch of 50 in turn, merged into one map. `single` stands for the
   * shared client's `get_file_details`, `now` for the current time.
   */
  method FetchModTimesUpdated(ids: seq<string>, query: BatchQuery, single: string -> Result<Details, SteamError>, now: int)
    returns (m: map<string, int>)
    ensures ids == [] ==> m == map[]
    ensures m == TimesUpTo(ids, NumBatches(|ids|), query, single, now)
  {
    m := map[];
    if |ids| == 0 {
      assert NumBatches(|ids|) == 0;
      return;
    }
    for b := 0 to NumBatches(|ids|)
      invariant m == TimesUpTo(ids, b, query, single, now)
    {
      var batchMap := FetchBatchAt(ids, b, query, single, now);
      TimesUpToStep(ids, b, query, single, now);
      m := m + batchMap;
    }
  }

  /** The times of batch `b`: IDs `50 * b` up to the next 50 or the end. */
  method FetchBatchAt(ids: seq<string>, b: nat, query: BatchQuery, single: string -> Result<Details, SteamError>, now: int)
    returns (batchMap: map<string, int>)
    requires b < NumBatches(|ids|)
    ensures b * BatchCount <= |ids|
    ensures batchMap == BatchTimes(BatchSlice(ids, b), query, single, now)
  {
    BatchStartsInside(b, |ids|);
    var start := b * BatchCount;
    var end := if start + BatchCount < |ids| then start + BatchCount else |ids|;
    assert ids[start..end] == BatchSlice(ids, b);
    batchMap := FetchBatchTimes(ids[start..end], query, single, now);
  }

  /** One more batch merges that batch's times over the ones before. */
  lemma TimesUpToStep(ids: seq<string>, b: nat, query: BatchQuery, single: string -> Result<Details, SteamError>, now: int)
    requires b < NumBatches(|ids|)
    ensures b * BatchCount <= |ids|
    ensures TimesUpTo(ids, b + 1, query, single, now)
            == TimesUpTo(ids, b, query, single, now) + BatchTimes(BatchSlice(ids, b), query, single, now)
  {
    BatchStartsInside(b, |ids|);
  }

  /** Merging more batches never loses an ID. */
  lemma {:induction false} TimesKeysGrow(ids: seq<string>, j: nat, k: nat, query: BatchQuery,
                                         single: string -> Result<Details, SteamError>, now: int)
    requires j <= k <= NumBatches(|ids|)
    ensures TimesUpTo(ids, j, query, single, now).Keys <= TimesUpTo(ids, k, query, single, now).Keys
    decreases k
  {
    if j < k {
      TimesKeysGrow(ids, j, k - 1, query, single, now);
    }
  }

  /** Every ID of a batch whose query failed is in the result. */
  lemma FailedBatchIdsKept(ids: seq<string>, b: nat, id: string, query: BatchQuery,
                           single: string -> Result<Details, SteamError>, now: int)
    requires b < NumBatches(|ids|)
    requires b * BatchCount <= |ids| && query(BatchSlice(ids, b)).Err? && id in BatchSlice(ids, b)
    ensures id in TimesUpTo(ids, NumBatches(|ids|), query, single, now)
  {
    FallbackTimesCover(BatchSlice(ids, b), single, now);
    assert id in TimesUpTo(ids, b + 1, query, single, now);
    TimesKeysGrow(ids, b + 1, NumBatches(|ids|), query, single, now);
  }

  /** Every successful batch answers only about IDs it asked for. */
  ghost predicate AnswersOwnIds(ids: seq<string>, query: BatchQuery)
  {
    forall b, i :: 0 <= b < NumBatches(|ids|) && b * BatchCount <= |ids| && query(BatchSlice(ids, b)).Ok?
                   && 0 <= i < |query(BatchSlice(ids, b)).value| ==>
                     query(BatchSlice(ids, b)).value[i].publishedfileid in BatchSlice(ids, b)
  }

  /** An ID of one batch does not occur in another when the IDs are distinct. */
  lemma BatchesDisjoint(ids: seq<string>, b: nat, c: nat, id: string)
    requires NoDuplicates(ids) && b != c
    requires b * BatchCount <= |ids| && c * BatchCount <= |ids|
    requires id in BatchSlice(ids, b)
    ensures id !in BatchSlice(ids, c)
  {
  }

  /** What a batch other than `b` contributes holds nothing under an ID of batch `b`. */
  lemma OtherBatchLeaves(ids: seq<string>, b: nat, c: nat, id: string, query: BatchQuery,
                         single: string -> Result<Details, SteamError>, now: int)
    requires NoDuplicates(ids) && AnswersOwnIds(ids, query)
    requires b != c && c < NumBatches(|ids|) && b * BatchCount <= |ids| && c * BatchCount <= |ids|
    requires id in BatchSlice(ids, b)
    ensures id !in BatchTimes(BatchSlice(ids, c), query, single, now)
  {
    var slice := BatchSlice(ids, c);
    BatchesDisjoint(ids, b, c, id);
    if query(slice).Ok? {
      TimesOfDetails(query(slice).value);
    } else {
      FallbackTimesCover(slice, single, now);
    }
  }

  /** Merging in a map without `x` leaves the entry of `x` as it was. */
  lemma UnionWithout<K, V>(a: map<K, V>, b: map<K, V>, x: K)
    requires x !in b
    ensures x in a + b <==> x in a
    ensures x in a ==> (a + b)[x] == a[x]
  {
  }

  /** `a` and `b` agree on the entry of `x`: both lack it, or both hold the same value. */
  ghost predicate AgreesAt<K, V>(a: map<K, V>, b: map<K, V>, x: K)
  {
    (x in a <==> x in b) && (x in a ==> a[x] == b[x])
  }

  /** Merging in a map without `x` keeps the entry of `x` agreeing with `base`. */
  lemma MergeLeaves<K, V>(before: map<K, V>, added: map<K, V>, after: map<K, V>, base: map<K, V>, x: K)
    requires after == before + added && x !in added && AgreesAt(before, base, x)
    ensures AgreesAt(after, base, x)
  {
    UnionWithout(before, added, x);
  }

  /** Batch `c` exists and contributes nothing under `id`. */
  predicate LeavesId(ids: seq<string>, c: nat, id: string, query: BatchQuery,
                     single: string -> Result<Details, SteamError>, now: int)
  {
    c * BatchCount <= |ids| && id !in BatchTimes(BatchSlice(ids, c), query, single, now)
  }

  /** When the batches after `b` contribute nothing under `id`, its entry is the one batch `b` left. */
  lemma {:induction false} LaterBatchesLeave(ids: seq<string>, b: nat, k: nat, id: string, query: BatchQuery,
                                             single: string -> Result<Details, SteamError>, now: int)
    requires b < k <= NumBatches(|ids|)
    requires forall c :: b < c < k ==> LeavesId(ids, c, id, query, single, now)
    ensures AgreesAt(TimesUpTo(ids, k, query, single, now), TimesUpTo(ids, b + 1, query, single, now), id)
    decreases k
  {
    if k > b + 1 {
      var j := k - 1;
      assert LeavesId(ids, j, id, query, single, now);
      TimesUpToStep(ids, j, query, single, now);
      var before := TimesUpTo(ids, j, query, single, now);
      var added := BatchTimes(BatchSlice(ids, j), query, single, now);
      var after := TimesUpTo(ids, j + 1, query, single, now);
      LaterBatchesLeave(ids, b, j, id, query, single, now);
      MergeLeaves(before, added, after, TimesUpTo(ids, b + 1, query, single, now), id);
    }
  }

  /**
   * With distinct IDs and batch answers that only describe the IDs
   * asked for, an ID of a failed batch ends up with its own request's
   * time, or the current time when that request failed too.
   */
  lemma FailedBatchFallsBack(ids: seq<string>, b: nat, id: string, query: BatchQuery,
                             single: string -> Result<Details, SteamError>, now: int)
    requires NoDuplicates(ids) && AnswersOwnIds(ids, query)
    requires b < NumBatches(|ids|)
    requires b * BatchCount <= |ids| && query(BatchSlice(ids, b)).Err? && id in BatchSlice(ids, b)
    ensures id in TimesUpTo(ids, NumBatches(|ids|), query, single, now)
    ensures TimesUpTo(ids, NumBatches(|ids|), query, single, now)[id] == TimeOr(single(id), now)
  {
    FallbackTimesCover(BatchSlice(ids, b), single, now);
    forall c | b < c < NumBatches(|ids|)
      ensures LeavesId(ids, c, id, query, single, now)
    {
      BatchStartsInside(c, |ids|);
      OtherBatchLeaves(ids, b, c, id, query, single, now);
    }
    LaterBatchesLeave(ids, b, NumBatches(|ids|), id, query, single, now);
  }

  // ---------------------------------------------------------------
  // Marker files.

  /**
   * `write_ignore_update_file` / `write_last_updated_file`: create
   * `About` (giving up when that fails), then write the decimal time
   * into the marker (a failed write is only logged).
   */
  function MarkerWriteSpec(t: Tree, folder: Path, name: string, timeUpdated: int): Tree
  {
    var about := folder + ["About"];
    if !CanCreateDirAll(t, about) then t
    else
      var c := CreateDirAllSpec(t, about);
      if IsDir(c, about + [name]) then c else c[about + [name] := File(IntToString(timeUpdated))]
  }

  method WriteMarker(fs: Fs, folder: Path, name: string, timeUpdated: int)
    requires fs.Valid()
    modifies fs
    ensures fs.Valid()
    ensures fs.tree == MarkerWriteSpec(old(fs.tree), folder, name, timeUpdated)
  {
    var about := folder + ["About"];
    ghost var t0 := fs.tree;
    var created := fs.CreateDirAll(about);
    if !created {
      return;
    }
    CreateDirAllProperties(t0, about);
    var path := about + [name];
    assert path[..|path| - 1] == about;
    var _ := fs.WriteFile(path, IntToString(timeUpdated));
  }

  method WriteIgnoreUpdateFile(fs: Fs, folder: Path, timeUpdated: int)
    requires fs.Valid()
    modifies fs
    ensures fs.Valid()
    ensures fs.tree == MarkerWriteSpec(old(fs.tree), folder, IgnoredUpdateFile, timeUpdated)
  {
    WriteMarker(fs, folder, IgnoredUpdateFile, timeUpdated);
  }

  method WriteLastUpdatedFile(fs: Fs, folder: Path, timeUpdated: int)
    requires fs.Valid()
    modifies fs
    ensures fs.Valid()
    ensures fs.tree == MarkerWriteSpec(old(fs.tree), folder, LastUpdatedFile, timeUpdated)
  {
    WriteMarker(fs, folder, LastUpdatedFile, timeUpdated);
  }

  /** When the write can happen, the marker then holds the decimal text of the time. */
  lemma MarkerWritten(t: Tree, folder: Path, name: string, timeUpdated: int)
    requires CanCreateDirAll(t, folder + ["About"]) && !IsDir(t, folder + ["About", name])
    ensures var w := MarkerWriteSpec(t, folder, name, timeUpdated);
            IsFile(w, AboutFile(folder, name)) && w[AboutFile(folder, name)].content == IntToString(timeUpdated)
  {
    var about := folder + ["About"];
    assert about + [name] == folder + ["About", name] == AboutFile(folder, name);
  }

  /**
   * Writing a positive time as the ignore marker and reading it back
   * with `get_ignored_update_timestamp` gives that time.
   */
  lemma IgnoreMarkerRoundTrip(t: Tree, folder: Path, timeUpdated: int)
    requires 0 < timeUpdated <= I64Max
    requires CanCreateDirAll(t, folder + ["About"]) && !IsDir(t, folder + ["About", IgnoredUpdateFile])
    ensures var w := MarkerWriteSpec(t, folder, IgnoredUpdateFile, timeUpdated);
            IgnoredTimestampSpec(w, folder) == Read(w, Ok(Some(timeUpdated)))
  {
    MarkerWritten(t, folder, IgnoredUpdateFile, timeUpdated);
    TimestampRoundTrip(timeUpdated);
  }

  /**
   * Writing a positive time as the last-updated marker and reading it
   * back with `get_mod_last_updated_time` gives that time, whatever the
   * file times say.
   */
  lemma LastUpdatedMarkerRoundTrip(t: Tree, folder: Path, timeUpdated: int, mtime: MTime, now: int)
    requires 0 < timeUpdated <= I64Max
    requires CanCreateDirAll(t, folder + ["About"]) && !IsDir(t, folder + ["About", LastUpdatedFile])
    ensures var w := MarkerWriteSpec(t, folder, LastUpdatedFile, timeUpdated);
            LastUpdatedSpec(w, folder, mtime, now) == Read(w, Ok(timeUpdated))
  {
    MarkerWritten(t, folder, LastUpdatedFile, timeUpdated);
    TimestampRoundTrip(timeUpdated);
  }
}
