// The commands that ignore a mod's pending update, report which mods
// carry an ignored update, and undo the ignore. Every folder of the
// mod's ID in its mods folder gets (or loses) the `.ignoredupdate`
// marker. The tasks the commands run concurrently are run here one
// after another, in the order the commands start them.

module IgnoreHandlers {
  import opened Common
  import opened FileSystem
  import opened ModQuery
  import opened WorkshopClient
  import opened Services
  import opened CommandTypes

  /** `{"modId": …, "ignored": true}`. */
  datatype IgnoredEntry = IgnoredEntry(modId: string)

  /** `{"modId": …, "undone": true}`. */
  datatype UndoneEntry = UndoneEntry(modId: string)

  // ---------------------------------------------------------------
  // Markers in several folders.

  /** The tree after writing the marker `name` with `time` into each folder in turn. */
  function MarkersSpec(t: Tree, folders: seq<Path>, name: string, time: int): Tree
    decreases |folders|
  {
    if folders == [] then t
    else MarkerWriteSpec(MarkersSpec(t, folders[..|folders| - 1], name, time), folders[|folders| - 1], name, time)
  }

  /**
   * In a folder whose `About` directory exists, writing a marker changes
   * exactly the marker path, unless a directory stands there.
   */
  lemma MarkerWriteIntoAbout(t: Tree, folder: Path, name: string, time: int)
    requires WellFormed(t) && IsDir(t, folder + ["About"])
    ensures MarkerWriteSpec(t, folder, name, time) ==
              if IsDir(t, AboutFile(folder, name)) then t else t[AboutFile(folder, name) := File(IntToString(time))]
  {
    var about := folder + ["About"];
    forall i | 0 <= i <= |about|
      ensures about[..i] in t && t[about[..i]] == Dir
    {
      if i == |about| {
        assert about[..i] == about;
      } else {
        assert IsPrefix(about[..i], about);
        AncestorIsDir(t, about[..i], about);
      }
    }
    assert CanCreateDirAll(t, about);
    assert CreateDirAllSpec(t, about) == t;
    assert about + [name] == AboutFile(folder, name);
  }

  /** The marker of one folder is never the marker, the `About` folder or the ID file of another. */
  lemma MarkerPathsApart(f: Path, g: Path, name: string)
    requires |f| == |g| && f != g
    ensures AboutFile(f, name) != AboutFile(g, name)
    ensures AboutFile(f, name) != g + ["About"] && AboutFile(f, name) != FileIdPath(g)
  {
    var i :| 0 <= i < |f| && f[i] != g[i];
    assert AboutFile(f, name)[i] == f[i] && AboutFile(g, name)[i] == g[i];
    assert |AboutFile(f, name)| != |g + ["About"]|;
    if name != "PublishedFileId.txt" {
      assert AboutFile(f, name)[|f| + 1] != FileIdPath(g)[|g| + 1];
    } else {
      assert FileIdPath(g)[i] == g[i];
    }
  }

  /** Folders of one mods folder: same depth, each with its `About` directory. */
  ghost predicate AboutDirs(t: Tree, folders: seq<Path>, depth: nat)
  {
    forall f :: f in folders ==> |f| == depth && IsDir(t, f + ["About"])
  }

  /** `q` is none of the folders' markers. */
  predicate NotMarkerOf(q: Path, folders: seq<Path>, name: string)
  {
    forall f :: f in folders ==> q != AboutFile(f, name)
  }

  /** Every marker of the folders that was not a directory in `t` holds the time in `w`. */
  ghost predicate Written(t: Tree, w: Tree, folders: seq<Path>, name: string, time: int)
  {
    forall f :: f in folders && !IsDir(t, AboutFile(f, name)) ==>
      AboutFile(f, name) in w && w[AboutFile(f, name)] == File(IntToString(time))
  }

  /** Only the folders' markers may differ between `t` and `w`. */
  ghost predicate KeptElsewhere(t: Tree, w: Tree, folders: seq<Path>, name: string)
  {
    forall q :: NotMarkerOf(q, folders, name) ==> (q in w <==> q in t) && (q in t ==> w[q] == t[q])
  }

  /** A marker is a directory in `w` exactly when it was one in `t`. */
  ghost predicate DirsKept(t: Tree, w: Tree, folders: seq<Path>, name: string)
  {
    forall f :: f in folders ==> (IsDir(w, AboutFile(f, name)) <==> IsDir(t, AboutFile(f, name)))
  }

  /** An `About` folder is nobody's marker. */
  lemma AboutNotMarker(g: Path, folders: seq<Path>, name: string, depth: nat)
    requires |g| == depth && forall f :: f in folders ==> |f| == depth
    ensures NotMarkerOf(g + ["About"], folders, name)
  {
    forall f | f in folders
      ensures g + ["About"] != AboutFile(f, name)
    {
      assert |g + ["About"]| != |AboutFile(f, name)|;
    }
  }

  /** A folder's marker is no other folder's marker. */
  lemma OwnMarker(g: Path, folders: seq<Path>, name: string, depth: nat)
    requires |g| == depth && g !in folders && forall f :: f in folders ==> |f| == depth
    ensures NotMarkerOf(AboutFile(g, name), folders, name)
  {
    forall f | f in folders
      ensures AboutFile(g, name) != AboutFile(f, name)
    {
      MarkerPathsApart(g, f, name);
    }
  }

  /** The marker of `g` written over `m`, unless a directory stands there. */
  predicate MarkerOver(m: Tree, w: Tree, g: Path, name: string, time: int)
  {
    w == if IsDir(m, AboutFile(g, name)) then m else m[AboutFile(g, name) := File(IntToString(time))]
  }

  lemma StepKept(t: Tree, m: Tree, w: Tree, init: seq<Path>, g: Path, name: string, time: int)
    requires KeptElsewhere(t, m, init, name) && MarkerOver(m, w, g, name, time)
    ensures KeptElsewhere(t, w, init + [g], name)
  {
    var folders := init + [g];
    forall q | NotMarkerOf(q, folders, name)
      ensures (q in w <==> q in t) && (q in t ==> w[q] == t[q])
    {
      assert g in folders;
      forall f | f in init
        ensures q != AboutFile(f, name)
      {
        assert f in folders;
      }
      assert NotMarkerOf(q, init, name);
    }
  }

  lemma StepWritten(t: Tree, m: Tree, w: Tree, init: seq<Path>, g: Path, name: string, time: int, depth: nat)
    requires Written(t, m, init, name, time) && MarkerOver(m, w, g, name, time)
    requires IsDir(m, AboutFile(g, name)) <==> IsDir(t, AboutFile(g, name))
    requires |g| == depth && forall f :: f in init ==> |f| == depth
    ensures Written(t, w, init + [g], name, time)
  {
    forall f | f in init + [g] && !IsDir(t, AboutFile(f, name))
      ensures AboutFile(f, name) in w && w[AboutFile(f, name)] == File(IntToString(time))
    {
      if f != g {
        assert f in init;
        MarkerPathsApart(f, g, name);
      }
    }
  }

  lemma StepDirs(t: Tree, m: Tree, w: Tree, init: seq<Path>, g: Path, name: string, time: int, depth: nat)
    requires DirsKept(t, m, init, name) && MarkerOver(m, w, g, name, time)
    requires IsDir(m, AboutFile(g, name)) <==> IsDir(t, AboutFile(g, name))
    requires |g| == depth && forall f :: f in init ==> |f| == depth
    ensures DirsKept(t, w, init + [g], name)
  {
    forall f | f in init + [g]
      ensures IsDir(w, AboutFile(f, name)) <==> IsDir(t, AboutFile(f, name))
    {
      if f != g {
        assert f in init;
        MarkerPathsApart(f, g, name);
      }
    }
  }

  /** One more folder's marker written on top of the earlier ones. */
  lemma MarkerStep(t: Tree, m: Tree, w: Tree, init: seq<Path>, g: Path, name: string, time: int, depth: nat)
    requires WellFormed(m) && AboutDirs(t, init + [g], depth)
    requires Written(t, m, init, name, time) && KeptElsewhere(t, m, init, name) && DirsKept(t, m, init, name)
    requires w == MarkerWriteSpec(m, g, name, time)
    ensures WellFormed(w) && Written(t, w, init + [g], name, time)
    ensures KeptElsewhere(t, w, init + [g], name) && DirsKept(t, w, init + [g], name)
  {
    var mg := AboutFile(g, name);
    assert g in init + [g];
    assert forall f :: f in init ==> f in init + [g];
    AboutNotMarker(g, init, name, depth);
    assert IsDir(m, g + ["About"]);
    MarkerWriteIntoAbout(m, g, name, time);
    if !IsDir(m, mg) {
      AddMarkerWellFormed(m, g, name, time);
    }
    assert IsDir(m, mg) <==> IsDir(t, mg) by {
      if g !in init {
        OwnMarker(g, init, name, depth);
      }
    }
    StepKept(t, m, w, init, g, name, time);
    StepWritten(t, m, w, init, g, name, time, depth);
    StepDirs(t, m, w, init, g, name, time, depth);
  }

  /**
   * Writing the marker into folders that all have an `About` directory:
   * every such marker that was not a directory now holds the time, and
   * every other path is as it was.
   */
  lemma {:induction false} MarkersWritten(t: Tree, folders: seq<Path>, name: string, time: int, depth: nat)
    requires WellFormed(t) && AboutDirs(t, folders, depth)
    ensures var w := MarkersSpec(t, folders, name, time);
            && WellFormed(w) && Written(t, w, folders, name, time)
            && KeptElsewhere(t, w, folders, name) && DirsKept(t, w, folders, name)
    decreases |folders|
  {
    if folders != [] {
      var init := folders[..|folders| - 1];
      var g := folders[|folders| - 1];
      assert folders == init + [g];
      assert AboutDirs(t, init, depth) by {
        forall f | f in init
          ensures f in folders
        {
        }
      }
      MarkersWritten(t, init, name, time, depth);
      var m := MarkersSpec(t, init, name, time);
      MarkerStep(t, m, MarkersSpec(t, folders, name, time), init, g, name, time, depth);
    }
  }

  lemma AddMarkerWellFormed(t: Tree, folder: Path, name: string, time: int)
    requires WellFormed(t) && IsDir(t, folder + ["About"]) && !IsDir(t, AboutFile(folder, name))
    ensures WellFormed(t[AboutFile(folder, name) := File(IntToString(time))])
  {
    var p := AboutFile(folder, name);
    assert Up(p) == folder + ["About"];
    forall q | q in t && q != [] && Up(q) == p
      ensures false
    {
    }
  }

  /** The marker `name` with `time` written into each folder in turn. */
  method WriteMarkers(fs: Fs, folders: seq<Path>, name: string, time: int)
    requires fs.Valid()
    modifies fs
    ensures fs.Valid()
    ensures fs.tree == MarkersSpec(old(fs.tree), folders, name, time)
  {
    var i := 0;
    while i < |folders|
      invariant i <= |folders| && fs.Valid()
      invariant fs.tree == MarkersSpec(old(fs.tree), folders[..i], name, time)
    {
      assert folders[..i + 1][..i] == folders[..i];
      WriteMarker(fs, folders[i], name, time);
      i := i + 1;
    }
    assert folders[..|folders|] == folders;
  }

  // ---------------------------------------------------------------
  // ignore_update

  /**
   * The folders a mod's task works on: none when its path has no
   * parent or the parent cannot be listed (the lookup's error reads as
   * no folders), otherwise every folder of the parent holding the ID,
   * once each, in listing order.
   */
  ghost predicate FoldersChosen(t: Tree, modPath: Path, modId: string, folders: seq<Path>)
  {
    if modPath == [] || !IsDir(t, modPath[..|modPath| - 1]) then folders == []
    else NoDuplicates(folders) &&
         forall q :: q in folders <==> q in ModFoldersWithId(t, modPath[..|modPath| - 1], modId)
  }

  /**
   * `process_ignore_mod`: an error only when the path has no parent;
   * the marker `name` goes into every folder of the ID beside the path
   * (`.ignoredupdate` here, `.lastupdated` in the older layer and after
   * an install in its `update_mods`).
   */
  method ProcessIgnoreMod(fs: Fs, modId: string, modPath: Path, name: string, time: int)
    returns (r: Result<string, string>, ghost folders: seq<Path>)
    requires fs.Valid()
    modifies fs
    ensures fs.Valid()
    ensures r == if modPath == [] then Err(NoModsPath) else Ok(modId)
    ensures FoldersChosen(old(fs.tree), modPath, modId, folders)
    ensures fs.tree == MarkersSpec(old(fs.tree), folders, name, time)
  {
    var modsPath := GetModsPathFromModPath(modPath);
    if modsPath.Err? {
      return Err(modsPath.error), [];
    }
    assert modsPath.value == modPath[..|modPath| - 1];
    var found := FindAllModFoldersWithId(fs.tree, modsPath.value, modId);
    var all := if found.Ok? then found.value else [];
    WriteMarkers(fs, all, name, time);
    return Ok(modId), all;
  }

  /**
   * Every folder a mod's task chose holds the marker with the mod's
   * time afterwards, unless a directory stands in its place, and
   * nothing outside those markers changes.
   */
  lemma IgnoreMarksEveryFolder(t: Tree, modPath: Path, modId: string, folders: seq<Path>, name: string, time: int)
    requires WellFormed(t) && FoldersChosen(t, modPath, modId, folders)
    ensures var w := MarkersSpec(t, folders, name, time);
            WellFormed(w) && Written(t, w, folders, name, time) && KeptElsewhere(t, w, folders, name)
  {
    if folders == [] {
      MarkersWritten(t, folders, name, time, 0);
    } else {
      var modsPath := modPath[..|modPath| - 1];
      ModFoldersWithIdShape(t, modsPath, modId);
      forall f | f in folders
        ensures |f| == |modsPath| + 1 && IsDir(t, f + ["About"])
      {
        assert HoldsMod(t, f, modId);
      }
      MarkersWritten(t, folders, name, time, |modsPath| + 1);
    }
  }

  /**
   * The marker the task wrote reads back as the mod's time when that
   * time is a positive `i64`.
   */
  lemma IgnoreMarkReadsBack(t: Tree, modPath: Path, modId: string, folders: seq<Path>, time: int, f: Path)
    requires WellFormed(t) && FoldersChosen(t, modPath, modId, folders)
    requires 0 < time <= I64Max && f in folders && !IsDir(t, AboutFile(f, IgnoredUpdateFile))
    ensures var w := MarkersSpec(t, folders, IgnoredUpdateFile, time);
            IgnoredTimestampSpec(w, f) == Read(w, Ok(Some(time)))
  {
    IgnoreMarksEveryFolder(t, modPath, modId, folders, IgnoredUpdateFile, time);
    TimestampRoundTrip(time);
  }

  /** The order `ignore_update` starts its tasks in: mods with details, then mods without. */
  function IgnoreOrder(mods: seq<ScannedMod>): seq<ScannedMod>
  {
    WithDetails(mods) + WithoutDetails(mods)
  }

  /** The time recorded for a mod: its details' update time, else the fetched one, else now. */
  function IgnoreTime(m: ScannedMod, fetched: map<string, int>, now: int): int
  {
    if m.details.Some? then m.details.value.timeUpdated
    else if m.modId in fetched then fetched[m.modId]
    else now
  }

  /** The update times fetched for the mods without details (nothing is fetched when there are none). */
  function FetchedTimes(mods: seq<ScannedMod>, query: BatchQuery, single: string -> Result<Details, SteamError>, now: int)
    : map<string, int>
  {
    var ids := ModIds(WithoutDetails(mods));
    if ids == [] then map[] else TimesUpTo(ids, NumBatches(|ids|), query, single, now)
  }

  /** One task of `ignore_update`: the mod, its path and the time to record. */
  datatype Job = Job(modId: string, modPath: Path, time: int)

  function JobFor(m: ScannedMod, fetched: map<string, int>, now: int): Job
  {
    Job(m.modId, m.modPath, IgnoreTime(m, fetched, now))
  }

  /** The tasks `ignore_update` sets up, in the order it starts them. */
  function IgnoreJobs(order: seq<ScannedMod>, fetched: map<string, int>, now: int): (jobs: seq<Job>)
    ensures |jobs| == |order|
  {
    seq(|order|, k requires 0 <= k < |order| => JobFor(order[k], fetched, now))
  }

  /** The `ignored` report for these tasks. */
  function IgnoredReport(jobs: seq<Job>): seq<IgnoredEntry>
  {
    seq(|jobs|, k requires 0 <= k < |jobs| => IgnoredEntry(jobs[k].modId))
  }

  lemma IgnoredReportExtend(jobs: seq<Job>, i: nat)
    requires i < |jobs|
    ensures IgnoredReport(jobs[..i + 1]) == IgnoredReport(jobs[..i]) + [IgnoredEntry(jobs[i].modId)]
  {
  }

  /** The tree after the tasks ran in turn, task `i` writing the marker `name` into the folders `folders[i]`. */
  ghost function MarkedTree(t0: Tree, jobs: seq<Job>, folders: seq<seq<Path>>, name: string): Tree
    requires |folders| == |jobs|
    decreases |jobs|
  {
    if jobs == [] then t0
    else
      var n := |jobs| - 1;
      MarkersSpec(MarkedTree(t0, jobs[..n], folders[..n], name), folders[n], name, jobs[n].time)
  }

  /** Each task chose its folders in the tree the earlier tasks left. */
  ghost predicate MarkedInTurn(t0: Tree, jobs: seq<Job>, folders: seq<seq<Path>>, name: string)
    requires |folders| == |jobs|
    decreases |jobs|
  {
    jobs != [] ==>
      var n := |jobs| - 1;
      MarkedInTurn(t0, jobs[..n], folders[..n], name) &&
      FoldersChosen(MarkedTree(t0, jobs[..n], folders[..n], name), jobs[n].modPath, jobs[n].modId, folders[n])
  }

  lemma MarkedStep(t0: Tree, jobs: seq<Job>, i: nat, folders: seq<seq<Path>>, chosen: seq<Path>, name: string)
    requires |folders| == i < |jobs|
    ensures var t := MarkedTree(t0, jobs[..i], folders, name);
            && MarkedTree(t0, jobs[..i + 1], folders + [chosen], name) == MarkersSpec(t, chosen, name, jobs[i].time)
            && (MarkedInTurn(t0, jobs[..i + 1], folders + [chosen], name) <==>
                  MarkedInTurn(t0, jobs[..i], folders, name) && FoldersChosen(t, jobs[i].modPath, jobs[i].modId, chosen))
  {
    assert (folders + [chosen])[..i] == folders;
    assert jobs[..i + 1][..i] == jobs[..i];
  }

  /** Task `i`, run on the tree the earlier tasks left. */
  method IgnoreStep(fs: Fs, jobs: seq<Job>, i: nat, name: string, ghost t0: Tree, ghost folders: seq<seq<Path>>)
    returns (ghost chosen: seq<Path>)
    requires fs.Valid() && |folders| == i < |jobs|
    requires MarkedInTurn(t0, jobs[..i], folders, name) && fs.tree == MarkedTree(t0, jobs[..i], folders, name)
    modifies fs
    ensures fs.Valid()
    ensures MarkedInTurn(t0, jobs[..i + 1], folders + [chosen], name)
    ensures fs.tree == MarkedTree(t0, jobs[..i + 1], folders + [chosen], name)
  {
    var _, all := ProcessIgnoreMod(fs, jobs[i].modId, jobs[i].modPath, name, jobs[i].time);
    MarkedStep(t0, jobs, i, folders, all, name);
    return all;
  }

  /** One more task, run on the tree the earlier tasks left. */
  method AppendJob(fs: Fs, jobs: seq<Job>, job: Job, name: string, ghost t0: Tree, ghost folders: seq<seq<Path>>)
    returns (ghost chosen: seq<Path>)
    requires fs.Valid() && |folders| == |jobs|
    requires MarkedInTurn(t0, jobs, folders, name) && fs.tree == MarkedTree(t0, jobs, folders, name)
    modifies fs
    ensures fs.Valid()
    ensures MarkedInTurn(t0, jobs + [job], folders + [chosen], name)
    ensures fs.tree == MarkedTree(t0, jobs + [job], folders + [chosen], name)
  {
    assert (jobs + [job])[..|jobs|] == jobs && (jobs + [job])[..|jobs| + 1] == jobs + [job];
    chosen := IgnoreStep(fs, jobs + [job], |jobs|, name, t0, folders);
  }

  /** The tasks, run in turn, each writing the marker `name`; each is reported as ignored. */
  method RunIgnoreJobs(fs: Fs, jobs: seq<Job>, name: string) returns (r: seq<IgnoredEntry>, ghost folders: seq<seq<Path>>)
    requires fs.Valid()
    modifies fs
    ensures fs.Valid()
    ensures r == IgnoredReport(jobs) && |folders| == |jobs|
    ensures MarkedInTurn(old(fs.tree), jobs, folders, name) && fs.tree == MarkedTree(old(fs.tree), jobs, folders, name)
  {
    ghost var t0 := fs.tree;
    r, folders := [], [];
    var i := 0;
    while i < |jobs|
      invariant i <= |jobs| && |folders| == i && fs.Valid()
      invariant r == IgnoredReport(jobs[..i])
      invariant MarkedInTurn(t0, jobs[..i], folders, name) && fs.tree == MarkedTree(t0, jobs[..i], folders, name)
    {
      ghost var chosen := IgnoreStep(fs, jobs, i, name, t0, folders);
      IgnoredReportExtend(jobs, i);
      r := r + [IgnoredEntry(jobs[i].modId)];
      folders := folders + [chosen];
      i := i + 1;
    }
    assert jobs[..|jobs|] == jobs;
  }

  /**
   * `ignore_update`. `query` and `single` answer the update-time
   * lookups, `now` is the current time. Every mod is reported as
   * ignored, whatever happened to its files; the tasks run in the order
   * they are set up.
   */
  method IgnoreUpdate(fs: Fs, mods: seq<ScannedMod>, query: BatchQuery, single: string -> Result<Details, SteamError>,
                      now: int)
    returns (r: seq<IgnoredEntry>, ghost folders: seq<seq<Path>>)
    requires fs.Valid()
    modifies fs
    ensures fs.Valid()
    ensures mods == [] ==> r == [] && fs.tree == old(fs.tree)
    ensures var jobs := IgnoreJobs(IgnoreOrder(mods), FetchedTimes(mods, query, single, now), now);
            && r == IgnoredReport(jobs) && |folders| == |jobs|
            && MarkedInTurn(old(fs.tree), jobs, folders, IgnoredUpdateFile)
            && fs.tree == MarkedTree(old(fs.tree), jobs, folders, IgnoredUpdateFile)
  {
    if mods == [] {
      return [], [];
    }
    var withDetails := WithDetails(mods);
    var withoutDetails := WithoutDetails(mods);
    var ids := ModIds(withoutDetails);
    var fetched: map<string, int> := map[];
    if ids != [] {
      fetched := FetchModTimesUpdated(ids, query, single, now);
    }
    r, folders := RunIgnoreJobs(fs, IgnoreJobs(withDetails + withoutDetails, fetched, now), IgnoredUpdateFile);
  }

  /** Every mod gets a task recording its own time. */
  lemma EveryModHasAJob(mods: seq<ScannedMod>, fetched: map<string, int>, now: int)
    ensures forall m :: m in mods ==> JobFor(m, fetched, now) in IgnoreJobs(IgnoreOrder(mods), fetched, now)
  {
    PartitionByDetails(mods);
    var order := IgnoreOrder(mods);
    var jobs := IgnoreJobs(order, fetched, now);
    forall m | m in mods
      ensures JobFor(m, fetched, now) in jobs
    {
      assert m in multiset(order);
      var k :| 0 <= k < |order| && order[k] == m;
      assert jobs[k] == JobFor(m, fetched, now);
    }
  }

  /** Every task belongs to one of the mods. */
  lemma EveryJobHasAMod(mods: seq<ScannedMod>, fetched: map<string, int>, now: int)
    ensures forall j :: j in IgnoreJobs(IgnoreOrder(mods), fetched, now) ==> exists m :: m in mods && j == JobFor(m, fetched, now)
  {
    PartitionByDetails(mods);
    var order := IgnoreOrder(mods);
    var jobs := IgnoreJobs(order, fetched, now);
    forall j | j in jobs
      ensures exists m :: m in mods && j == JobFor(m, fetched, now)
    {
      var k :| 0 <= k < |jobs| && jobs[k] == j;
      assert order[k] in multiset(mods);
    }
  }

  /** The mods with details come first in the order the tasks start. */
  lemma DetailedModsFirst(mods: seq<ScannedMod>)
    ensures forall i :: 0 <= i < |IgnoreOrder(mods)| ==> (IgnoreOrder(mods)[i].details.Some? <==> i < |WithDetails(mods)|)
  {
    var order := IgnoreOrder(mods);
    forall i | 0 <= i < |order|
      ensures order[i].details.Some? <==> i < |WithDetails(mods)|
    {
      if i < |WithDetails(mods)| {
        assert order[i] in WithDetails(mods);
      } else {
        assert order[i] == WithoutDetails(mods)[i - |WithDetails(mods)|];
        assert order[i] in WithoutDetails(mods);
      }
    }
  }

  /**
   * There is one task per mod: every mod gets a task recording its own
   * time, every task belongs to a mod, and the mods with details come
   * first.
   */
  lemma {:induction false} IgnoreJobsCoverInput(mods: seq<ScannedMod>, fetched: map<string, int>, now: int)
    ensures var jobs := IgnoreJobs(IgnoreOrder(mods), fetched, now);
            && |jobs| == |mods|
            && (forall m :: m in mods ==> JobFor(m, fetched, now) in jobs)
            && (forall j :: j in jobs ==> exists m :: m in mods && j == JobFor(m, fetched, now))
            && (forall i :: 0 <= i < |jobs| ==> (IgnoreOrder(mods)[i].details.Some? <==> i < |WithDetails(mods)|))
  {
    PartitionByDetails(mods);
    assert |IgnoreOrder(mods)| == |multiset(IgnoreOrder(mods))| == |mods|;
    EveryModHasAJob(mods, fetched, now);
    EveryJobHasAMod(mods, fetched, now);
    DetailedModsFirst(mods);
  }

  /**
   * After the tasks, every folder the last task chose holds that task's
   * time as its marker, unless a directory stands in the marker's place.
   */
  lemma LastTaskMarks(t0: Tree, jobs: seq<Job>, folders: seq<seq<Path>>, name: string, f: Path)
    requires WellFormed(t0) && |folders| == |jobs| && jobs != [] && MarkedInTurn(t0, jobs, folders, name)
    requires var n := |jobs| - 1; f in folders[n] && !IsDir(MarkedTree(t0, jobs[..n], folders[..n], name), AboutFile(f, name))
    ensures var w := MarkedTree(t0, jobs, folders, name);
            IsFile(w, AboutFile(f, name)) && w[AboutFile(f, name)].content == IntToString(jobs[|jobs| - 1].time)
  {
    var n := |jobs| - 1;
    MarkedTreeWellFormed(t0, jobs[..n], folders[..n], name);
    IgnoreMarksEveryFolder(MarkedTree(t0, jobs[..n], folders[..n], name), jobs[n].modPath, jobs[n].modId, folders[n], name, jobs[n].time);
  }

  lemma {:induction false} MarkedTreeWellFormed(t0: Tree, jobs: seq<Job>, folders: seq<seq<Path>>, name: string)
    requires WellFormed(t0) && |folders| == |jobs| && MarkedInTurn(t0, jobs, folders, name)
    ensures WellFormed(MarkedTree(t0, jobs, folders, name))
    decreases |jobs|
  {
    if jobs != [] {
      var n := |jobs| - 1;
      MarkedTreeWellFormed(t0, jobs[..n], folders[..n], name);
      IgnoreMarksEveryFolder(MarkedTree(t0, jobs[..n], folders[..n], name), jobs[n].modPath, jobs[n].modId, folders[n], name, jobs[n].time);
    }
  }

  // ---------------------------------------------------------------
  // check_ignored_updates

  /**
   * `check_ignored_updates`: one entry per path, true exactly when
   * something exists at `About/.ignoredupdate`. A repeated path gets
   * the same answer again.
   */
  method CheckIgnoredUpdates(t: Tree, modPaths: seq<Path>) returns (m: map<Path, bool>)
    ensures m.Keys == set p | p in modPaths
    ensures forall p :: p in m ==> (m[p] <==> AboutFile(p, IgnoredUpdateFile) in t)
  {
    m := map[];
    if modPaths == [] {
      return;
    }
    var i := 0;
    while i < |modPaths|
      invariant i <= |modPaths|
      invariant m.Keys == set p | p in modPaths[..i]
      invariant forall p :: p in m ==> (m[p] <==> AboutFile(p, IgnoredUpdateFile) in t)
    {
      var p := modPaths[i];
      var about := p + ["About"];
      var ignorePath := about + [".ignoredupdate"];
      assert ignorePath == AboutFile(p, IgnoredUpdateFile);
      m := m[p := ignorePath in t];
      assert modPaths[..i + 1] == modPaths[..i] + [p];
      i := i + 1;
    }
    assert modPaths[..|modPaths|] == modPaths;
  }

  // ---------------------------------------------------------------
  // undo_ignore_update

  /** Removing the ignore marker of one folder, if it is a file (a failed removal is only logged). */
  function UnmarkSpec(t: Tree, folder: Path): Tree
  {
    var p := AboutFile(folder, IgnoredUpdateFile);
    if IsFile(t, p) then RemoveFileSpec(t, p) else t
  }

  function UnmarksSpec(t: Tree, folders: seq<Path>): Tree
    decreases |folders|
  {
    if folders == [] then t else UnmarkSpec(UnmarksSpec(t, folders[..|folders| - 1]), folders[|folders| - 1])
  }

  /**
   * After the removals no folder of the list has an ignore marker file,
   * and everything but those markers is as it was.
   */
  lemma {:induction false} UnmarksClear(t: Tree, folders: seq<Path>)
    ensures var u := UnmarksSpec(t, folders);
            && (forall f :: f in folders ==> !IsFile(u, AboutFile(f, IgnoredUpdateFile)))
            && (forall q :: (forall f :: f in folders ==> q != AboutFile(f, IgnoredUpdateFile)) ==>
                  (q in u <==> q in t) && (q in t ==> u[q] == t[q]))
            && (forall q :: q in u ==> q in t && u[q] == t[q])
    decreases |folders|
  {
    if folders != [] {
      var init := folders[..|folders| - 1];
      assert forall f :: f in init ==> f in folders;
      UnmarksClear(t, init);
    }
  }

  method RemoveIgnoreMarkers(fs: Fs, folders: seq<Path>)
    requires fs.Valid()
    modifies fs
    ensures fs.Valid()
    ensures fs.tree == UnmarksSpec(old(fs.tree), folders)
  {
    var i := 0;
    while i < |folders|
      invariant i <= |folders| && fs.Valid()
      invariant fs.tree == UnmarksSpec(old(fs.tree), folders[..i])
    {
      assert folders[..i + 1][..i] == folders[..i];
      var p := folders[i] + ["About"] + [".ignoredupdate"];
      assert p == AboutFile(folders[i], IgnoredUpdateFile);
      if p in fs.tree {
        var _ := fs.RemoveFile(p);
      }
      i := i + 1;
    }
    assert folders[..|folders|] == folders;
  }

  /** The `undone` report for these mods. */
  function UndoneReport(mods: seq<ScannedMod>): seq<UndoneEntry>
  {
    seq(|mods|, k requires 0 <= k < |mods| => UndoneEntry(mods[k].modId))
  }

  lemma UndoneReportExtend(mods: seq<ScannedMod>, i: nat)
    requires i < |mods|
    ensures UndoneReport(mods[..i + 1]) == UndoneReport(mods[..i]) + [UndoneEntry(mods[i].modId)]
  {
  }

  /** The tree after the undo tasks ran in turn, task `i` on the folders `folders[i]`. */
  ghost function UnmarkedTree(t0: Tree, mods: seq<ScannedMod>, folders: seq<seq<Path>>): Tree
    requires |folders| == |mods|
    decreases |mods|
  {
    if mods == [] then t0
    else
      var n := |mods| - 1;
      UnmarksSpec(UnmarkedTree(t0, mods[..n], folders[..n]), folders[n])
  }

  /** Each undo task chose its folders in the tree the earlier tasks left. */
  ghost predicate UnmarkedInTurn(t0: Tree, mods: seq<ScannedMod>, folders: seq<seq<Path>>)
    requires |folders| == |mods|
    decreases |mods|
  {
    mods != [] ==>
      var n := |mods| - 1;
      UnmarkedInTurn(t0, mods[..n], folders[..n]) &&
      FoldersChosen(UnmarkedTree(t0, mods[..n], folders[..n]), mods[n].modPath, mods[n].modId, folders[n])
  }

  lemma UnmarkedStep(t0: Tree, mods: seq<ScannedMod>, i: nat, folders: seq<seq<Path>>, chosen: seq<Path>)
    requires |folders| == i < |mods|
    ensures var t := UnmarkedTree(t0, mods[..i], folders);
            && UnmarkedTree(t0, mods[..i + 1], folders + [chosen]) == UnmarksSpec(t, chosen)
            && (UnmarkedInTurn(t0, mods[..i + 1], folders + [chosen]) <==>
                  UnmarkedInTurn(t0, mods[..i], folders) && FoldersChosen(t, mods[i].modPath, mods[i].modId, chosen))
  {
    assert (folders + [chosen])[..i] == folders;
    assert mods[..i + 1][..i] == mods[..i];
  }

  /** The task of one mod: remove the ignore marker from every folder of its ID in `modsPath`. */
  method UndoIgnoreMod(fs: Fs, modId: string, ghost modPath: Path, modsPath: Path) returns (ghost folders: seq<Path>)
    requires fs.Valid() && modPath != [] && modsPath == modPath[..|modPath| - 1]
    modifies fs
    ensures fs.Valid()
    ensures FoldersChosen(old(fs.tree), modPath, modId, folders)
    ensures fs.tree == UnmarksSpec(old(fs.tree), folders)
  {
    var found := FindAllModFoldersWithId(fs.tree, modsPath, modId);
    var all := if found.Ok? then found.value else [];
    RemoveIgnoreMarkers(fs, all);
    return all;
  }

  /** Undo task `i`, run on the tree the earlier tasks left. */
  method UndoStep(fs: Fs, mods: seq<ScannedMod>, parent: Path, i: nat, ghost t0: Tree, ghost folders: seq<seq<Path>>)
    returns (ghost chosen: seq<Path>)
    requires fs.Valid() && |folders| == i < |mods|
    requires mods[i].modPath != [] && parent == mods[i].modPath[..|mods[i].modPath| - 1]
    requires UnmarkedInTurn(t0, mods[..i], folders) && fs.tree == UnmarkedTree(t0, mods[..i], folders)
    modifies fs
    ensures fs.Valid()
    ensures UnmarkedInTurn(t0, mods[..i + 1], folders + [chosen])
    ensures fs.tree == UnmarkedTree(t0, mods[..i + 1], folders + [chosen])
  {
    chosen := UndoIgnoreMod(fs, mods[i].modId, mods[i].modPath, parent);
    UnmarkedStep(t0, mods, i, folders, chosen);
  }

  /** The undo tasks, run in turn on mods whose mods folders are already known. */
  method RunUndoTasks(fs: Fs, mods: seq<ScannedMod>, parents: seq<Path>) returns (r: seq<UndoneEntry>, ghost folders: seq<seq<Path>>)
    requires fs.Valid() && |parents| == |mods|
    requires forall k :: 0 <= k < |mods| ==> mods[k].modPath != [] && parents[k] == mods[k].modPath[..|mods[k].modPath| - 1]
    modifies fs
    ensures fs.Valid()
    ensures r == UndoneReport(mods) && |folders| == |mods|
    ensures UnmarkedInTurn(old(fs.tree), mods, folders) && fs.tree == UnmarkedTree(old(fs.tree), mods, folders)
  {
    ghost var t0 := fs.tree;
    r, folders := [], [];
    var i := 0;
    while i < |mods|
      invariant i <= |mods| && |folders| == i && fs.Valid()
      invariant r == UndoneReport(mods[..i])
      invariant UnmarkedInTurn(t0, mods[..i], folders) && fs.tree == UnmarkedTree(t0, mods[..i], folders)
    {
      ghost var chosen := UndoStep(fs, mods, parents[i], i, t0, folders);
      UndoneReportExtend(mods, i);
      r := r + [UndoneEntry(mods[i].modId)];
      folders := folders + [chosen];
      i := i + 1;
    }
    assert mods[..|mods|] == mods;
  }

  /**
   * `undo_ignore_update`. The mods folder of every mod is worked out
   * while the tasks are being set up, so one path without a parent
   * fails the command before any marker is removed. Otherwise every mod
   * is reported as undone, in input order.
   */
  method UndoIgnoreUpdate(fs: Fs, mods: seq<ScannedMod>) returns (r: Result<seq<UndoneEntry>, string>, ghost folders: seq<seq<Path>>)
    requires fs.Valid()
    modifies fs
    ensures fs.Valid()
    ensures mods == [] ==> r == Ok([])
    ensures r.Err? <==> exists i :: 0 <= i < |mods| && mods[i].modPath == []
    ensures r.Err? ==> r.error == NoModsPath && fs.tree == old(fs.tree)
    ensures r.Ok? ==> r.value == UndoneReport(mods) && |folders| == |mods|
    ensures r.Ok? ==> UnmarkedInTurn(old(fs.tree), mods, folders) && fs.tree == UnmarkedTree(old(fs.tree), mods, folders)
  {
    if mods == [] {
      return Ok([]), [];
    }
    var parents := ModsPathsOf(mods);
    if parents.Err? {
      return Err(parents.error), [];
    }
    var undone;
    undone, folders := RunUndoTasks(fs, mods, parents.value);
    return Ok(undone), folders;
  }

  /** The mods folder of each mod, in order; the first path without a parent stops the walk. */
  method ModsPathsOf(mods: seq<ScannedMod>) returns (r: Result<seq<Path>, string>)
    ensures r.Err? <==> exists i :: 0 <= i < |mods| && mods[i].modPath == []
    ensures r.Err? ==> r.error == NoModsPath
    ensures r.Ok? ==>
              && |r.value| == |mods|
              && forall k :: 0 <= k < |mods| ==> mods[k].modPath != [] && r.value[k] == mods[k].modPath[..|mods[k].modPath| - 1]
  {
    var parents: seq<Path> := [];
    var i := 0;
    while i < |mods|
      invariant i <= |mods| && |parents| == i
      invariant forall k :: 0 <= k < i ==> mods[k].modPath != [] && parents[k] == mods[k].modPath[..|mods[k].modPath| - 1]
    {
      var modsPath := GetModsPathFromModPath(mods[i].modPath);
      if modsPath.Err? {
        return Err(modsPath.error);
      }
      parents := parents + [modsPath.value];
      i := i + 1;
    }
    return Ok(parents);
  }

  /**
   * After a mod's undo task, none of its folders holds an ignore marker
   * file, so reading the ignored timestamp there finds none, unless the
   * marker was unreadable to begin with.
   */
  lemma UndoClearsIgnored(t: Tree, folders: seq<Path>, f: Path)
    requires f in folders
    ensures var u := UnmarksSpec(t, folders);
            !IsDir(t, AboutFile(f, IgnoredUpdateFile)) && !IsFile(t, f) && !IsFile(t, f + ["About"]) ==>
              IgnoredTimestampSpec(u, f) == Read(u, Ok(None))
  {
    UnmarksClear(t, folders);
  }
}
