# RimWorld Workshop Downloader — a verified model of its core

RimWorld Workshop Downloader is a desktop application that keeps the
Steam Workshop mods of a RimWorld installation up to date. A backend
asks the Steam Web API which installed mods have a newer Workshop
version, downloads them with SteamCMD (several instances at once, the
mods spread over them by size), and installs each download into the
mods folder. The old folder can be kept in a backup directory and
restored later. A pending update can be ignored until the next one,
and the mod list can be exported in RimSort's text format. An older
command layer in the desktop front end (`src-tauri`) does the same
with one SteamCMD run and an install loop that runs one mod after
another.

This project models that core in Dafny, one module per source file:

- The downloader:
  - how mod IDs are spread over at most four SteamCMD instances (round-robin, or greedy by size);
  - the script each instance runs;
  - the registry of downloads in flight;
  - how a finished download is detected.
- The installers: folder-name sanitising and resolution, and the backup → remove → copy sequence over a file system held as a map from paths to nodes.
- The update check:
  - the marker files `PublishedFileId.txt`, `.lastupdated` and `.ignoredupdate`;
  - the eligibility filter and the "more than one second newer" rule;
  - the batched Workshop queries and the lenient JSON decoders.
- The command handlers:
  - update, download, backup/restore, ignore/undo, the Workshop batch lookups and export;
  - the result each one builds and the files each one writes.
- The small stateful utilities: the TTL cache, the rate limiter, the Workshop client's caches and collection scraping, the directory-access check and the path helpers.
- Both older command files (`backend/src/commands.rs` and `frontend/src-tauri/src/commands.rs`).

Conventions:
- Time is an integer clock passed in as a parameter.
- The network, SteamCMD and the installers' outcomes are parameters or function-typed oracles.
- `read_dir` order is left open (`:|` choice), and the contracts about it are relational.
- Work the source runs in concurrent tasks runs here one task after another, in the order the tasks are started.
- Methods that change the file system or an object are proved against specification functions. Lemmas then state the properties of those functions: partitions and permutations, round trips of the marker files, what is left unchanged, and the completeness of the result maps.

## Model

| member | source | states |
|---|---|---|
| ApiRateLimiter.RateLimiter.constructor | backend/src/core/api_rate_limiter.rs:12-17 | a new limiter dates its last request one delay before now |
| ApiRateLimiter.RateLimiter.Wait | backend/src/core/api_rate_limiter.rs:20-30 | sleeps for what is left of the delay since the last request and dates the request at the time it resumes, so requests are at least the delay apart |
| ApiRateLimiter.RateLimiter.Execute | backend/src/core/api_rate_limiter.rs:33-40 | waits as `wait` does, then hands back the action's result unchanged |
| ApiRateLimiter.SleepSpacesRequests | backend/src/core/api_rate_limiter.rs:20-30 | a request never goes ahead sooner than the delay after the previous one; no sleep once the delay has passed, and exactly the missing part otherwise |
| ApiRateLimiter.FirstWaitIsFree | backend/src/core/api_rate_limiter.rs:12-17 | the first request of a new limiter does not sleep |
| ApiRateLimiter.BackToBack | backend/src/core/api_rate_limiter.rs:48-60 | a first wait at creation sleeps nothing and a second one at once sleeps the whole delay |
| TtlCache.Cache.constructor | backend/src/backend/cache.rs:17-22 | a new cache is empty and keeps the given default time to live |
| TtlCache.Cache.Set | backend/src/backend/cache.rs:25-28 | the key now maps to the value, expiring at now plus the given time to live or the default; other keys are unchanged |
| TtlCache.Cache.Get | backend/src/backend/cache.rs:31-42 | answers the key's value while it has not expired and removes a stale or missing key |
| TtlCache.Cache.Has | backend/src/backend/cache.rs:45-47 | true exactly when `get` finds a live value, with the same removal |
| TtlCache.Cache.Clear | backend/src/backend/cache.rs:50-52 | no entry is left |
| TtlCache.Cache.Cleanup | backend/src/backend/cache.rs:55-58 | exactly the entries whose expiry is still ahead are kept |
| TtlCache.SetThenLookup | backend/src/backend/cache.rs:25-42 | a value just set is found up to its expiry and not after it, and every other key answers as before |
| TtlCache.GetIsStable | backend/src/backend/cache.rs:31-42 | `get` removes at most its own key, and asking again at the same instant gives the same answer and state |
| TtlCache.CleanupKeepsLaterLookups | backend/src/backend/cache.rs:31-58 | `cleanup` changes no later answer of `get`; at the cleanup instant it drops just the entries expiring at that instant |
| TtlCache.ClearedFindsNothing | backend/src/backend/cache.rs:50-52 | after `clear` no key is found |
| TtlCache.ExpiryScenario | backend/src/backend/cache.rs:74-82 | a value set with the default time to live is found before it expires and not after |
| AccessCheck.AccessOutcomes | backend/src/core/access_check.rs:11-68 | access is granted exactly when the path is a listable directory in which a file can be created and written; a missing path, a file or an unlistable directory report no access; a listable but unwritable directory reports read access only |
| AccessCheck.ProbeCleanedUp | backend/src/core/access_check.rs:45-56 | the temporary probe file is gone after the check and nothing else in the tree changes |
| AccessCheck.AccessKeepsWellFormed | backend/src/core/access_check.rs:45-56 | the check leaves the file tree well formed |
| AccessCheck.CheckDirectoryAccess | backend/src/core/access_check.rs:11-68 | the answer and the new tree are those of the access specification on the old tree |
| AccessCheck.EnsureDirectoryAccess | backend/src/core/access_check.rs:95-113 | any access error fails the call with that error; otherwise it succeeds |
| AccessCheck.CheckDirectoryAccessWithWarning | backend/src/core/access_check.rs:117-149 | only a directory that cannot be read fails; a readable but unwritable one passes |
| AccessCheck.LenientAcceptsReadable | backend/src/core/access_check.rs:117-149 | a directory that can be listed passes the lenient check whatever its write access |
| Services.ValidateModsPath | backend/src/services.rs:35-47 | succeeds with the path exactly when it is a directory; a missing path gets the "does not exist" error and a file the "not a directory" error |
| Services.ExtractFolderName | backend/src/services.rs:50-56 | the last component of the path; "Invalid mod path" exactly when the path is empty |
| Services.GetModsPathFromModPath | backend/src/services.rs:59-64 | the parent directory, one component shorter and a prefix of the path; "Cannot get mods path from mod path" exactly when the path is empty |
| Services.SplitModPath | backend/src/services.rs:50-64 | the two helpers fail together, and the mods folder joined with the folder name gives the mod path back |
| Services.ModFoldersWithIdShape | backend/src/services.rs:67-88 | there is a folder holding the ID exactly when this search finds one, and every folder found is a direct sub-directory of the mods folder holding that ID |
| Services.FindAllModFoldersWithId | backend/src/services.rs:67-88 | fails exactly when the mods path is not a directory; otherwise lists, once each, every sub-directory whose `About/PublishedFileId.txt` names the mod ID |
| Services.BatchSlices | backend/src/services.rs:100-104 | the IDs fall into ceil(n / 50) batches in order, none empty and none longer than 50; ID `i` is item `i % 50` of batch `i / 50` |
| Services.TimesOfDetails | backend/src/services.rs:115-122 | a successful batch maps exactly the IDs it answered, each to the update time of its last detail |
| Services.FallbackTimesCover | backend/src/services.rs:124-145 | after a failed batch query every ID of the batch, and only those, maps to its own query's time or the current time |
| Services.CollectTimes | backend/src/services.rs:117-121 | the loop builds the map of published IDs to update times |
| Services.FetchBatchTimes | backend/src/services.rs:107-148 | a batch's map: the batch answer's times, or each ID's own lookup when the batch query fails |
| Services.FetchModTimesUpdated | backend/src/services.rs:91-163 | empty for no IDs; otherwise the batches of 50 merged in order, a later batch overriding an earlier one |
| Services.FetchBatchAt | backend/src/services.rs:100-104 | batch `b` holds the IDs from `50 * b` up to the next 50 or the end |
| Services.TimesUpToStep | backend/src/services.rs:155-159 | one more batch merges its times over those of the batches before |
| Services.TimesKeysGrow | backend/src/services.rs:155-159 | merging more batches never loses an ID |
| Services.FailedBatchIdsKept | backend/src/services.rs:124-159 | every ID of a batch whose query failed is in the result |
| Services.BatchesDisjoint | backend/src/services.rs:100-104 | with distinct IDs, an ID of one batch is in no other batch |
| Services.LaterBatchesLeave | backend/src/services.rs:155-159 | batches that say nothing about an ID leave its time as the earlier batch set it |
| Services.FailedBatchFallsBack | backend/src/services.rs:124-159 | with distinct IDs, an ID of a failed batch ends with its own lookup's time, or the current time when that lookup fails too |
| Services.WriteIgnoreUpdateFile | backend/src/services.rs:166-180 | the tree becomes the marker write of `.ignoredupdate`: the About folder is created and the decimal time written, or nothing changes when that cannot be done |
| Services.WriteLastUpdatedFile | backend/src/services.rs:183-197 | the tree becomes the marker write of `.lastupdated`, as for the ignore marker |
| Services.MarkerWritten | backend/src/services.rs:166-197 | when the About folder can be created and no directory stands in the marker's place, the marker then holds the decimal text of the time |
| Services.IgnoreMarkerRoundTrip | backend/src/services.rs:166-180 | a positive time written as the ignore marker reads back as that time through `get_ignored_update_timestamp` |
| Services.LastUpdatedMarkerRoundTrip | backend/src/services.rs:183-197 | a positive time written as the last-updated marker reads back as that time through `get_mod_last_updated_time`, whatever the file times say |
| WorkshopClient.KeysDiffer | backend/src/core/workshop_client.rs:28 | different mod IDs never share a `file-details-`, `is-collection-` or `collection-details-` cache key |
| WorkshopClient.FileDetailsCaching | backend/src/core/workshop_client.rs:27-67 | a live cached answer does not depend on the network reply; a fresh success is found in the cache for the next hour; a failure is not cached; no other key changes |
| WorkshopClient.CollectionMarkers | backend/src/core/workshop_client.rs:110-116 | a page counts as a collection exactly when it holds one of six markers; the quoted forms add nothing |
| WorkshopClient.CapturesAreLinkedIds | backend/src/core/workshop_client.rs:172-183 | every captured ID is a non-empty run of digits that directly follows `sharedfiles/filedetails/?id=` and is not cut short |
| WorkshopClient.CaptureAt | backend/src/core/workshop_client.rs:172-177 | the capture of a match is the whole run of digits after the link text |
| WorkshopClient.SteamApi.constructor | backend/src/core/workshop_client.rs:17-24 | three empty caches with a one-hour time to live and a limiter with a two-second delay |
| WorkshopClient.SteamApi.GetFileDetails | backend/src/core/workshop_client.rs:27-67 | the answer and the new file-details cache are those of the caching specification: a live entry first, else the reply, cached on success |
| WorkshopClient.SteamApi.ScrapeIsCollection | backend/src/core/workshop_client.rs:95-117 | waits through the limiter, fails when the page cannot be fetched, and otherwise answers the marker test on the page |
| WorkshopClient.SteamApi.IsCollection | backend/src/core/workshop_client.rs:70-92 | a live cached answer is returned unchanged; otherwise a failed file-details lookup is the answer; file type 2 is a collection, file type 0 is decided by the page, any other type is not; a success is cached for an hour; the limiter's last request is dated at the resumed time exactly when the page is fetched and is otherwise unchanged |
| WorkshopClient.SteamApi.ScrapeCollectionModIds | backend/src/core/workshop_client.rs:157-187 | fails exactly when the page cannot be fetched; otherwise answers every captured ID other than the collection's own, each once |
| WorkshopClient.SteamApi.FetchEach | backend/src/core/workshop_client.rs:140-145 | asks for each ID's details in turn and keeps the successes, with the caching of each request |
| WorkshopClient.SteamApi.GetCollectionDetails | backend/src/core/workshop_client.rs:120-154 | a live cached list first; otherwise a page failure is the answer; no captured IDs caches and answers the empty list; otherwise the batch query's answer for the captured IDs when it succeeds, or each ID's own lookup when it fails; the list found is cached for an hour; the limiter's last request is unchanged on a cache hit and dated at the resumed time once the page is fetched |
| WorkshopClient.FallbackWithoutCache | backend/src/core/workshop_client.rs:140-145 | with none of the IDs cached, the fallback lists exactly the details of the lookups that succeeded, in the order of the IDs |
| Deserializers.BoolFromInt | frontend/src-tauri/src/backend/deserializers.rs:6-35 | accepts exactly a boolean or the numbers 0 and 1, and the number 1 means true |
| Deserializers.U64FromStrOrInt | frontend/src-tauri/src/backend/deserializers.rs:38-61 | any value decoded lies in the `u64` range, and a value that is neither a string nor a number is refused as an invalid type |
| Deserializers.I64FromStrOrInt | frontend/src-tauri/src/backend/deserializers.rs:64-87 | any value decoded lies in the `i64` range, and a value that is neither a string nor a number is refused as an invalid type |
| Deserializers.I32FromStrOrInt | frontend/src-tauri/src/backend/deserializers.rs:90-113 | any value decoded lies in the `i32` range and is what the `i64` decoder gives; a value that is neither a string nor a number is refused as an invalid type |
| Deserializers.I64RoundTrip | frontend/src-tauri/src/backend/deserializers.rs:64-87 | an `i64` sent as a number or as its decimal string decodes to itself |
| Deserializers.I32RoundTrip | frontend/src-tauri/src/backend/deserializers.rs:90-113 | an `i32` sent as a number or as its decimal string decodes to itself |
| Deserializers.U64RoundTrip | frontend/src-tauri/src/backend/deserializers.rs:38-61 | a `u64` sent as a number or as its decimal string decodes to itself |
| Deserializers.I32RejectsWiderNumbers | frontend/src-tauri/src/backend/deserializers.rs:90-113 | one past either end of the `i32` range is refused although the `i64` decoder accepts it, and a float is refused by both |
| CommandTypes.ModIds | backend/src/commands/ignore_handlers.rs:24-27 | one ID per mod, in order |
| CommandTypes.WithDetails | backend/src/commands/ignore_handlers.rs:19-21 | only mods that carry details |
| CommandTypes.WithoutDetails | backend/src/commands/ignore_handlers.rs:19-21 | only mods without details |
| CommandTypes.PartitionByDetails | backend/src/commands/ignore_handlers.rs:19-21 | the two parts hold every mod exactly once between them |
| ExportHandlers.ExportUrl | backend/src/commands/export_handlers.rs:70-86 | the address is empty exactly when the details have neither an address nor a published ID, or, without details, when the mod is local or has no ID; otherwise it is the details' address or the Workshop page of the published ID or mod ID |
| ExportHandlers.FormatExport | backend/src/commands/export_handlers.rs:44-95 | the loop builds the header followed by the mod lines joined by newlines |
| ExportHandlers.ExportLinesStep | backend/src/commands/export_handlers.rs:52-92 | one more mod adds its own line at the end |
| ExportHandlers.ExportTextLines | backend/src/commands/export_handlers.rs:44-95 | read back line by line, the export is the title line, the count line, a blank line and then exactly one line per mod in order, when the version and the fields are single-line |
| ExportHandlers.ExportModsToClipboard | backend/src/commands/export_handlers.rs:15-108 | mods given are exported as they are; without mods or path the command fails; an invalid path, an unreadable folder, a failed listing or a failed details lookup fail it with their messages; otherwise the export text goes to the clipboard and the command succeeds exactly when the clipboard accepts it |
| SteamCmdClient.DownloadPathOf | backend/src/core/steamcmd_client.rs:18-27 | the download folder is `steamapps/workshop/content/294100` below the SteamCMD directory |
| SteamCmdClient.NumInstances | backend/src/core/steamcmd_client.rs:207-211 | as many instances as mods, never more than four, and at least one for a non-empty request |
| SteamCmdClient.ColumnLength | backend/src/core/steamcmd_client.rs:120-126 | batch `b` of the round robin gets `ceil((n - b) / k)` of the `n` IDs |
| SteamCmdClient.RoundRobinPosition | backend/src/core/steamcmd_client.rs:120-126 | the ID at position `i` is element `i / k` of batch `i % k` |
| SteamCmdClient.RoundRobinPartition | backend/src/core/steamcmd_client.rs:120-126 | the round-robin batches together hold every ID exactly as often as it was requested |
| SteamCmdClient.BalanceRoundRobin | backend/src/core/steamcmd_client.rs:120-126 | `k` batches, batch `b` holding the IDs at the positions equal to `b` modulo `k`, together a permutation of the request |
| SteamCmdClient.RoundRobinStep | backend/src/core/steamcmd_client.rs:122-124 | pushing the ID at position `i` onto batch `i % k` extends the batches by that position |
| SteamCmdClient.ColumnStep | backend/src/core/steamcmd_client.rs:122-124 | position `i` joins batch `b` exactly when `i` is `b` modulo `k` |
| SteamCmdClient.SortBySizeDescSorted | backend/src/core/steamcmd_client.rs:135-146 | the sort by size, a missing size counting as 0, is largest first and a permutation of the IDs |
| SteamCmdClient.SortBySizeDescStable | backend/src/core/steamcmd_client.rs:146 | the sort is stable: the IDs of one size keep their request order |
| SteamCmdClient.FirstMinIndex | backend/src/core/steamcmd_client.rs:155-160 | `min_by_key` picks an index of the loads |
| SteamCmdClient.FirstMinIndexIsFirstLeast | backend/src/core/steamcmd_client.rs:155-160 | the chosen load is a least one and every earlier index holds a strictly larger load |
| SteamCmdClient.Greedy | backend/src/core/steamcmd_client.rs:149-165 | one batch and one load per instance |
| SteamCmdClient.GreedyEmpty | backend/src/core/steamcmd_client.rs:149-150 | before any ID every batch is empty and no load is counted |
| SteamCmdClient.GreedyLoads | backend/src/core/steamcmd_client.rs:149-165 | every instance's load is the total size of its batch |
| SteamCmdClient.GreedyPartition | backend/src/core/steamcmd_client.rs:149-165 | the batches together hold exactly the IDs assigned |
| SteamCmdClient.GreedyPartitionStep | backend/src/core/steamcmd_client.rs:163 | the last ID assigned is added once to the batches |
| SteamCmdClient.GreedySum | backend/src/core/steamcmd_client.rs:149-165 | the loads add up to the total size assigned |
| SteamCmdClient.GreedySumStep | backend/src/core/steamcmd_client.rs:164 | the last ID adds its size to the sum of the loads |
| SteamCmdClient.GreedyBound | backend/src/core/steamcmd_client.rs:149-165 | no instance's load exceeds the average load by more than the largest size |
| SteamCmdClient.LeastLoadBound | backend/src/core/steamcmd_client.rs:155-160 | the least load is at most the average load |
| SteamCmdClient.BalanceBySize | backend/src/core/steamcmd_client.rs:130-173 | the batches are the greedy assignment of the IDs sorted largest first |
| SteamCmdClient.BalanceBySizePartition | backend/src/core/steamcmd_client.rs:130-173 | size balancing puts every requested ID in exactly one batch, once per request |
| SteamCmdClient.PlannedBatches | backend/src/core/steamcmd_client.rs:207-220 | one batch per instance |
| SteamCmdClient.PlannedBatchesPartition | backend/src/core/steamcmd_client.rs:207-220 | whether planned by size or round robin, the batches lose and invent no ID |
| SteamCmdClient.BuildScript | backend/src/core/steamcmd_client.rs:302-313 | the script lines are the install directory, the anonymous login, one `workshop_download_item 294100` line per ID in order, and `quit` |
| SteamCmdClient.ScriptLinesRoundTrip | backend/src/core/steamcmd_client.rs:313 | reading the script text back line by line gives its lines and one final empty piece, when no line holds a newline |
| SteamCmdClient.PollWithinTimeout | backend/src/core/steamcmd_client.rs:446-450 | a look within the timeout is followed by another look, at most the last one |
| SteamCmdClient.FirstPollPastTimeout | backend/src/core/steamcmd_client.rs:446-450 | the first look past the timeout is the last look |
| SteamCmdClient.DownloadedResult | backend/src/core/steamcmd_client.rs:553-574 | the result carries the ID and the path, and its folder is the path's last component |
| SteamCmdClient.WaitForModDownload | backend/src/core/steamcmd_client.rs:402-550 | answers the mod at the first look that finds the folder a non-empty directory; gives up, with no mod, only after a look past the timeout, and every earlier look found no ready folder |
| SteamCmdClient.ArrivedModsShape | backend/src/core/steamcmd_client.rs:325-331 | every mod reported was requested and arrived, sits at `download folder/<id>` with its ID as folder name, and each request yields at most one mod |
| SteamCmdClient.CollectArrived | backend/src/core/steamcmd_client.rs:384-390 | keeps, in request order, the mods whose wait found them |
| SteamCmdClient.CollectBatchResults | backend/src/core/steamcmd_client.rs:250-269 | the mods of every successful batch in batch order, and success and failure counts adding up to the number of batches |
| SteamCmdClient.FailedBatchContributesNothing | backend/src/core/steamcmd_client.rs:254-266 | a failed batch contributes no mod and does not stop the others |
| SteamCmdClient.LaunchRunsNonEmpty | backend/src/core/steamcmd_client.rs:226-243 | only non-empty batches run, each at most once, with its own index |
| SteamCmdClient.DownloadModsWithSizes | backend/src/core/steamcmd_client.rs:183-272 | an empty request gives no mods; a failed preparation fails the download; otherwise the mods of the batches that succeeded, planned by size or round robin |
| SteamCmdClient.LaunchBatches | backend/src/core/steamcmd_client.rs:226-247 | runs every non-empty batch in plan order and keeps the results |
| SteamCmdClient.DownloadBatch | backend/src/core/steamcmd_client.rs:275-399 | writes `run_batch_<i>.txt` holding the script; a failure to write it or to run SteamCMD fails the batch; otherwise the mods whose folders arrived |
| SteamCmdClient.Downloader.constructor | backend/src/core/steamcmd_client.rs:18-27 | the SteamCMD directory defaults to `steamcmd`, the download folder lies below it, and nothing is in flight |
| SteamCmdClient.Downloader.MarkDownloading | backend/src/core/steamcmd_client.rs:582-584 | the ID joins the downloads in flight and the paths stay as they were |
| SteamCmdClient.Downloader.MarkDownloaded | backend/src/core/steamcmd_client.rs:587-589 | the ID leaves the downloads in flight and the paths stay as they were |
| FrontendDownloader.DownloadMods | frontend/src-tauri/src/backend/downloader.rs:116-273 | one script naming every requested ID in order between the login and `quit` lines; a setup failure is returned as the error, otherwise the result is exactly the requested mods whose folders the detector saw arrive, in request order, whatever SteamCMD's exit status |
| FrontendDownloader.PollingDetectorLimits | frontend/src-tauri/src/backend/downloader.rs:276-345 | the detector looks once a second, its last look is at second 301, and it reports a mod exactly when some look within that window finds a non-empty folder |
| ModUpdater.ResolveFolderName | frontend/src-tauri/src/backend/mod_updater.rs:53-68 | the caller's name wins; otherwise the name of a folder that already holds the mod; otherwise the sanitised ID; it fails exactly when it must list the mods folder and that is not a directory |
| ModUpdater.NumericIdNamesFolder | frontend/src-tauri/src/backend/mod_updater.rs:63-66 | a numeric workshop ID passes through the sanitiser unchanged, so the fallback folder is named after the ID |
| ModUpdater.UpdateMod | frontend/src-tauri/src/backend/mod_updater.rs:42-115 | with a folder name settled as above, the tree afterwards and the result are those of the shared create / back up / remove / copy sequence; when the name cannot be settled nothing changes |
| ModManager.DropForbidden | backend/src/core/mod_manager.rs:11-14 | the filter keeps the allowed characters in order, drops every forbidden one, and leaves a text with none of them unchanged |
| ModManager.Words | backend/src/core/mod_manager.rs:17-19 | `split_whitespace` yields non-empty runs without whitespace, and splitting keeps a text free of forbidden characters |
| ModManager.Collapse | backend/src/core/mod_manager.rs:16-20 | after joining the words with single spaces there is no other whitespace and none at either end |
| ModManager.Cleaned | backend/src/core/mod_manager.rs:11-25 | after filtering, collapsing and trimming, the text holds no forbidden character, is single-spaced and neither starts nor ends with a dot or whitespace |
| ModManager.Cut | backend/src/core/mod_manager.rs:33-36 | a cleaned text over 200 characters is cut to a prefix of 199 or 200 characters that does not end in whitespace |
| ModManager.SanitizeShape | backend/src/core/mod_manager.rs:10-39 | every sanitised name is non-empty, at most 200 long, free of forbidden characters, single-spaced and trimmed, and never starts with a dot |
| ModManager.SanitizeKeepsText | backend/src/core/mod_manager.rs:27-38 | the fallback "Mod" is returned exactly when nothing survives cleaning; a cleaned text that fits is returned as is; a longer one is returned as its first 199 or 200 characters |
| ModManager.CollapseFixed | backend/src/core/mod_manager.rs:16-20 | collapsing whitespace gives back a text that is already single-spaced and trimmed |
| ModManager.CleanedFixed | backend/src/core/mod_manager.rs:11-25 | a text that is already clean passes every cleaning stage unchanged |
| ModManager.SanitizeKeepsClean | backend/src/core/mod_manager.rs:10-39 | a clean name of at most 200 characters is its own sanitised form |
| ModManager.SanitizeIdempotent | backend/src/core/mod_manager.rs:10-39 | when the cleaned name fits in 200 characters, sanitising twice gives the same name as sanitising once |
| ModManager.SanitizeCutNotIdempotent | backend/src/core/mod_manager.rs:10-39 | past the cut it is not: 199 letters, a dot and a letter sanitise to the letters and the dot, because only whitespace is trimmed after the cut, and a second pass drops the dot |
| ModManager.FindExistingModFolder | backend/src/core/mod_manager.rs:151-169 | an error exactly when the mods folder cannot be listed; a found folder is a direct child whose `PublishedFileId.txt` names the ID; `None` only when no child holds the mod |
| ModManager.DerivedNameChoice | backend/src/core/mod_manager.rs:65-85 | the new folder is the sanitised title (or ID), with ` (<id>)` appended exactly when a directory of that name holds a different mod |
| ModManager.ResolveFolderName | backend/src/core/mod_manager.rs:53-87 | the caller's name wins; otherwise a folder already holding the mod; otherwise the derived name; it fails exactly when the mods folder must be listed and is not a directory |
| ModManager.Backup | backend/src/core/mod_manager.rs:95-115 | the backup step's tree and error are those of its specification: create the backup directory, drop a stale backup, copy the current folder if present |
| ModManager.Prepare | backend/src/core/mod_manager.rs:89-125 | create the mods folder, back up if asked, then remove the old destination, each step stopping at its own error |
| ModManager.InstallAs | backend/src/core/mod_manager.rs:89-147 | the tree and result after the install with a fixed name are those of its specification, ending in the copy from the chosen source |
| ModManager.UpdateMod | backend/src/core/mod_manager.rs:42-148 | with the folder name settled by the name rules, the new tree and result are the install specification's; when no name can be settled nothing changes |
| ModManager.BackupKeeps | backend/src/core/mod_manager.rs:95-115 | the backup step changes nothing in a folder apart from the backup directory and the backup folder |
| ModManager.BackupWellFormed | backend/src/core/mod_manager.rs:95-115 | the backup step keeps the tree well formed |
| ModManager.BackupTargetCleared | backend/src/core/mod_manager.rs:98-106 | after creating the backup directory and removing a stale backup, the backup folder is gone and the directory exists |
| ModManager.BackupMirrors | backend/src/core/mod_manager.rs:108-113 | a backup step that succeeds over an existing folder leaves a copy of it in the backup folder and leaves the folder itself untouched |
| ModManager.PrepareKeeps | backend/src/core/mod_manager.rs:89-125 | preparation changes nothing outside the mods folder's ancestors, the destination and the backup area |
| ModManager.PrepareClears | backend/src/core/mod_manager.rs:91-125 | a successful preparation leaves the mods folder present and the destination removed |
| ModManager.PrepareBacksUp | backend/src/core/mod_manager.rs:96-125 | a successful preparation over an existing destination leaves its copy in the backup folder |
| ModManager.PrepareKeepsSources | backend/src/core/mod_manager.rs:127-135 | preparation leaves both candidate source folders as they were, so the choice of source is unaffected |
| ModManager.CopyStage | backend/src/core/mod_manager.rs:141-143 | copying into a fresh child of an existing folder succeeds and mirrors the source as it was before the call |
| ModManager.CopyKeepsPrepared | backend/src/core/mod_manager.rs:141-143 | the final copy only touches the destination |
| ModManager.InstallKeeps | backend/src/core/mod_manager.rs:89-147 | `update_mod` changes nothing outside the mods folder's ancestors, the destination and the backup area |
| ModManager.InstallPlacesSource | backend/src/core/mod_manager.rs:127-147 | the install succeeds exactly when preparation succeeds and the chosen source is a directory; it then returns the destination, which mirrors that source |
| ModManager.PrepareErrorsDiffer | backend/src/core/mod_manager.rs:91-125 | no preparation error is the missing-source error |
| ModManager.InstallMissingSource | backend/src/core/mod_manager.rs:128-139 | with neither source present the install fails; the missing-source error means preparation succeeded and neither source exists, and the old destination is then already gone |
| ModManager.InstallBacksUp | backend/src/core/mod_manager.rs:95-125 | with a backup directory, once the old destination is removed, the backup folder mirrors it as it was before the call |
| ModQuery.QueryModId | backend/src/backend/mod_query.rs:114-158 | a mod ID exactly when `About` is a directory holding a `PublishedFileId.txt` file; the ID is that file's trimmed text, never blank and never starting or ending in whitespace; every failure means "not a workshop mod" |
| ModQuery.TimestampValue | backend/src/backend/mod_query.rs:166-180 | a marker's timestamp is its trimmed text parsed as an `i64`, accepted exactly when it parses and is positive |
| ModQuery.TimestampRoundTrip | backend/src/backend/mod_query.rs:166-180 | writing a positive timestamp and reading it back gives it again, and such a marker is never deleted |
| ModQuery.NonPositiveTimestampInvalid | backend/src/backend/mod_query.rs:171-178 | a zero or negative timestamp is rejected and its marker counts as invalid |
| ModQuery.SweepMarkerFacts | backend/src/backend/mod_query.rs:174-177 | the invalid-marker sweep changes the tree exactly when the marker is a file with invalid text, and then removes only that file |
| ModQuery.IgnoredTimestampFacts | backend/src/backend/mod_query.rs:162-190 | an error exactly when the marker cannot be read as a file (a directory stands in its place, or the mod path or its `About` is a file); `None` when it is absent or invalid; a value only from a positive timestamp in it; the only change is the deletion of an invalid marker |
| ModQuery.LastUpdatedFacts | backend/src/backend/mod_query.rs:194-235 | a valid `.lastupdated` timestamp wins; otherwise the ID file's modification time, else the folder's; the only error is a missing mod folder; the only change is the deletion of an invalid marker |
| ModQuery.GetIgnoredUpdateTimestamp | backend/src/backend/mod_query.rs:162-190 | the value returned and the tree afterwards are those of the ignored-timestamp specification |
| ModQuery.GetModLastUpdatedTime | backend/src/backend/mod_query.rs:194-235 | the time returned and the tree afterwards are those of the last-updated specification |
| ModQuery.ReadMarker | backend/src/backend/mod_query.rs:199-214 | reading a marker file returns its valid timestamp and leaves the tree alone, or returns nothing and deletes the marker if its text is invalid |
| ModQuery.DecodeDetails | backend/src/backend/mod_query.rs:29-105 | a detail decodes only from an object with the required fields; its ID is the `publishedfileid` text or empty, its `time_updated` is the string-or-number reading, and its 32-bit fields are in range |
| ModQuery.DecodeAll | backend/src/backend/mod_query.rs:295-300 | the decoded details are exactly the items that decode, in order, and the others are dropped |
| ModQuery.QueryModBatch | backend/src/backend/mod_query.rs:238-313 | retries only on retryable answers and at most up to try three, sleeping `retries + 1` seconds before each retry; the result is the answer of the first try that is not retried |
| ModQuery.UniqueIds | backend/src/backend/mod_query.rs:249-254 | the IDs sent hold no duplicate and are exactly the requested IDs |
| ModQuery.FormParams | backend/src/backend/mod_query.rs:256-263 | the form holds `itemcount` (the number of unique IDs), `format=json` and `publishedfileids[i]` for each unique ID, and no other keys |
| ModQuery.BatchOfIndex | backend/src/backend/mod_query.rs:371-382 | item `i` lies in batch `i / 50`, which starts before it and ends after it |
| ModQuery.BatchIds | backend/src/backend/mod_query.rs:378-381 | batch `b` holds the IDs of mods `50b` up to the end of the batch, in order |
| ModQuery.DetailsMapLast | backend/src/backend/mod_query.rs:400-404 | the map's keys are the detail IDs and each maps to the last detail with that ID |
| ModQuery.BuildDetailsMap | backend/src/backend/mod_query.rs:400-404 | building the map gives the details map |
| ModQuery.FilledFacts | backend/src/backend/mod_query.rs:397-417 | filling changes only `details`, and only to the last detail of the mod's own batch answer carrying its ID; a failed batch or a missing ID leaves the mod as it was |
| ModQuery.UpdateModDetails | backend/src/backend/mod_query.rs:578-635 | the list keeps its length and order, and each mod is filled from the answer for its own batch of 50 |
| ModQuery.ListInstalledMods | backend/src/backend/mod_query.rs:524-574 | an error exactly when the mods folder is missing or not a directory; otherwise every sub-directory with a readable mod ID, once each |
| ModQuery.SecondsNewer | backend/src/backend/mod_query.rs:478-480 | the difference counts as more than one second exactly when the remote time is more than one second later |
| ModQuery.RoundedUpTimesExact | backend/src/backend/mod_query.rs:476-481 | the source truncates the difference between the whole-second remote time and a sub-second file time; that truncated difference equals the difference to the file time rounded up to whole seconds, which is how the model reads file times and the clock, so the "more than one second" comparison agrees for every file time |
| ModQuery.UpdateRule | backend/src/backend/mod_query.rs:464-500 | with a positive ignored timestamp the mod needs an update iff `time_updated` exceeds it by more than one; otherwise iff `time_updated` is more than one second after the last-updated time, read in whole seconds rounded up so that this equals the source's truncated `as_secs()` comparison (`RoundedUpTimesExact`); no answer exactly when `time_updated` is negative or the folder is gone |
| ModQuery.CheckLastUpdatedRule | backend/src/backend/mod_query.rs:473-485 | the comparison against the last-updated time (rounded up to whole seconds, which makes it the source's truncated `as_secs()` comparison by `RoundedUpTimesExact`), with no answer exactly when `time_updated` is negative or the folder is gone |
| ModQuery.CheckTreeChanges | backend/src/backend/mod_query.rs:464-500 | a check only deletes the mod's own invalid marker files |
| ModQuery.CheckLocal | backend/src/backend/mod_query.rs:464-500 | a mod's check reads and deletes only entries below its own folder |
| ModQuery.CheckMod | backend/src/backend/mod_query.rs:464-500 | the answer and tree after one mod's check are those of the check specification |
| ModQuery.UpdateFlags | backend/src/backend/mod_query.rs:427-500 | one flag per mod, saying whether it passes the filter (result 1, visible, not banned, RimWorld's app ID, not ignored) and needs an update |
| ModQuery.CheckMods | backend/src/backend/mod_query.rs:456-516 | the result holds, once per ID, the first mod of that ID needing an update, and the tree loses only the checked mods' invalid markers |
| ModQuery.QueryModsForUpdates | backend/src/backend/mod_query.rs:316-520 | an error, changing nothing, exactly when the mods folder is not a directory; otherwise the listing filled batch by batch, and the first folder of each ID needing an update, with only invalid markers removed |
| FrontendModQuery.StrictDecodeDetails | frontend/src-tauri/src/backend/mod_query.rs:14-57 | the front end decodes a detail exactly when the value is an object whose fields all have the plain types, numbers as numbers and flags as booleans |
| FrontendModQuery.StrictAgreesWithLenient | frontend/src-tauri/src/backend/mod_query.rs:14-57 | whatever the front end decodes, the backend decodes to the same details: the strict decoder accepts fewer documents, never different ones |
| FrontendModQuery.StrictRefusesQuotedNumbers | frontend/src-tauri/src/backend/mod_query.rs:29-34 | a timestamp sent as a string, or a flag sent as the number 1, is refused by the front end and accepted by the backend |
| FrontendModQuery.StrictDecodeAll | frontend/src-tauri/src/backend/mod_query.rs:222-227 | the decoded details are exactly the items that decode strictly, in order |
| FrontendModQuery.StrictSettleWithin | frontend/src-tauri/src/backend/mod_query.rs:201-230 | a strict reading of an answer fails exactly when the backend's does, with the same error, and its details are among the backend's |
| FrontendModQuery.StrictQueryModBatch | frontend/src-tauri/src/backend/mod_query.rs:165-242 | at most `MaxRetries - retries` waits, each retry only after a retryable answer |
| FrontendModQuery.StrictBatchWaits | frontend/src-tauri/src/backend/mod_query.rs:201-210 | the front end waits before each retry exactly as the backend does |
| FrontendModQuery.StrictBatchResult | frontend/src-tauri/src/backend/mod_query.rs:201-241 | the front end's answer is the strict reading of the try it stops at |
| FrontendModQuery.StrictBatchAgrees | frontend/src-tauri/src/backend/mod_query.rs:165-242 | the front end retries exactly as the backend does, and its answer is the strict reading of the try the backend settles on |
| FrontendModQuery.FindFirst | frontend/src-tauri/src/backend/mod_query.rs:329-331 | the first mod of the batch with the detail's ID, or none when no mod of the batch has it |
| FrontendModQuery.GiveDetails | frontend/src-tauri/src/backend/mod_query.rs:328-334 | each detail in turn goes to the first mod of the batch with its ID; IDs and mods outside the batch are kept |
| FrontendModQuery.FillBatch | frontend/src-tauri/src/backend/mod_query.rs:321-339 | after one batch, each of its mods holds the detail given to the first mod of its ID, and the other mods are unchanged |
| FrontendModQuery.FillFirstMatches | frontend/src-tauri/src/backend/mod_query.rs:315-345 | the list keeps its length, and each mod is filled from its own batch's answer by the first-match rule |
| FrontendModQuery.LaterDuplicateUnfilled | frontend/src-tauri/src/backend/mod_query.rs:329-332 | within a batch, a later mod with the ID of an earlier one gets no details in the front end, while the backend fills in both |
| FrontendModQuery.FrontendFilterWider | frontend/src-tauri/src/backend/mod_query.rs:382-405 | the front end admits every file the backend admits, and beyond those exactly the ones whose result code is neither 1 nor 9 |
| FrontendModQuery.FrontendRule | frontend/src-tauri/src/backend/mod_query.rs:407-417 | a negative `time_updated` aborts the query with a panic, a missing mod folder aborts it with an error, and otherwise the mod is newer exactly when `time_updated` exceeds the last-updated time by more than one second, that time read in whole seconds rounded up so that the comparison is the source's truncated `as_secs()` one (`ModQuery.RoundedUpTimesExact`) |
| FrontendModQuery.LastUpdatedLocal | frontend/src-tauri/src/backend/mod_query.rs:117-162 | the last-updated lookup reads and deletes only entries below the mod folder |
| FrontendModQuery.FrontendCheckLocal | frontend/src-tauri/src/backend/mod_query.rs:407-417 | a mod's check depends only on, and changes only, entries below its own folder |
| FrontendModQuery.FrontendCheckTree | frontend/src-tauri/src/backend/mod_query.rs:407-417 | a check deletes at most the mod's `.lastupdated` marker |
| FrontendModQuery.CheckModInOrder | frontend/src-tauri/src/backend/mod_query.rs:407-417 | one mod's check on the live tree gives the verdict and tree of the check specification |
| FrontendModQuery.Verdicts | frontend/src-tauri/src/backend/mod_query.rs:359-437 | one verdict per mod, each that of its check on the tree before the loop |
| FrontendModQuery.FrontendFlags | frontend/src-tauri/src/backend/mod_query.rs:417-436 | a mod is reported exactly when it compared as newer and its ID is not ignored |
| FrontendModQuery.CheckNext | frontend/src-tauri/src/backend/mod_query.rs:407-417 | checking the next mod on the live tree gives the verdict it has on the tree before the loop |
| FrontendModQuery.Tally | frontend/src-tauri/src/backend/mod_query.rs:422-436 | a mod counts into the report when flagged and its ID not yet seen; the seen IDs stay those of the report |
| FrontendModQuery.CheckLoop | frontend/src-tauri/src/backend/mod_query.rs:359-437 | the loop stops at the first abort; otherwise it reports, once per ID, the first mod of that ID flagged for update |
| FrontendModQuery.CheckModsInOrder | frontend/src-tauri/src/backend/mod_query.rs:359-437 | the loop's outcome is the one its verdicts on the original tree determine: the first abort or the report |
| FrontendModQuery.QueryModsForUpdates | frontend/src-tauri/src/backend/mod_query.rs:245-442 | an error, changing nothing, when the mods folder is not a directory; otherwise the listing filled by the first-match rule; an empty answer when no mod got details; otherwise the check loop's outcome |
| UpdateHandlers.CancelFlag.constructor | backend/src/commands/update_handlers.rs:9 | the shared cancel flag starts lowered |
| UpdateHandlers.CancelFlag.Cancel | backend/src/commands/update_handlers.rs:13-20 | `cancel_update_mods` raises the flag |
| UpdateHandlers.CancelFlag.IsCancelled | backend/src/commands/update_handlers.rs:24-26 | `check_update_cancelled` answers the flag as it stands |
| UpdateHandlers.CancelFlag.Reset | backend/src/commands/update_handlers.rs:30-33 | `reset_update_cancel_flag_command` lowers the flag |
| UpdateHandlers.SteamOnlyMembers | backend/src/commands/update_handlers.rs:51-54 | the Workshop mods are exactly the given mods not marked non-Steam, in order |
| UpdateHandlers.SizeMapKeys | backend/src/commands/update_handlers.rs:71-77 | the size map holds exactly the IDs of the mods with details, each with the file size of the last such mod |
| UpdateHandlers.RequestFor | backend/src/commands/update_handlers.rs:79-91 | the download asks for every Workshop mod's ID, balanced by size exactly when some mod has a known size |
| UpdateHandlers.ModsByIdKeys | backend/src/commands/update_handlers.rs:102-106 | every requested ID is a key of the lookup map, nothing else is, and each maps to a requested mod with that ID |
| UpdateHandlers.UnseenMembers | backend/src/commands/update_handlers.rs:325-330 | the IDs never delivered are exactly the requested IDs not seen, in request order |
| UpdateHandlers.CollectResults | backend/src/commands/update_handlers.rs:423-451 | the results loop builds the task part of the answer |
| UpdateHandlers.AppendUnseen | backend/src/commands/update_handlers.rs:453-460 | the loop over IDs never delivered appends each as a mod marked not updated |
| UpdateHandlers.Aggregation | backend/src/commands/update_handlers.rs:411-462 | the answer is the task results followed by the mods never delivered |
| UpdateHandlers.ResultModsMeaning | backend/src/commands/update_handlers.rs:423-451 | one marked mod per install result with a known ID, marked updated exactly when its install succeeded |
| UpdateHandlers.NotUpdatedMeaning | backend/src/commands/update_handlers.rs:453-460 | the mods of the undelivered IDs, each marked not updated |
| UpdateHandlers.AggregateMeaning | backend/src/commands/update_handlers.rs:149-189 | whether the update completed or was cancelled, each mod in the answer is a requested mod with only `updated` set; it is marked updated only when an install of it succeeded; every install result and every undelivered mod is answered for |
| UpdateHandlers.EveryModAnswered | backend/src/commands/update_handlers.rs:411-462 | every Workshop mod with an ID appears in the answer, through its install's result or as not updated |
| UpdateHandlers.Look | backend/src/commands/update_handlers.rs:117-117 | a look at the flag reads whether a cancellation has arrived by then |
| UpdateHandlers.HandleDelivery | backend/src/commands/update_handlers.rs:115-322 | one delivery, case by case: a cancellation seen at the first look stops the loop with nothing started; a download error is passed over; a cancellation seen at the second look skips the delivered mod; otherwise an unknown mod fails the command and a requested one has its install started, ending "cancelled" exactly when its task's own look sees a cancellation; the loop invariant is kept |
| UpdateHandlers.ReceiveAndAggregate | backend/src/commands/update_handlers.rs:104-462 | the installs started are exactly the mods delivered before some point, in delivery order, and a completed answer stops short of the last delivery only under a cancellation; no install started after a cancellation had arrived, and each ended "cancelled" exactly when its task saw one; `cancelled` is whether a look saw one; an unknown delivered ID fails the command; otherwise the answer is the aggregation |
| UpdateHandlers.OnlyLastInstallCancelled | backend/src/commands/update_handlers.rs:195-242 | only the last install started can end "cancelled"; every earlier one, and every one when no cancellation was seen, ran the installer |
| UpdateHandlers.NoRequestNoCancel | backend/src/commands/update_handlers.rs:115-201 | when no cancellation is ever requested, none is reported |
| UpdateHandlers.ModsFolder | backend/src/commands/update_handlers.rs:44-62 | in order: no mods, no Workshop mods, or a first Workshop mod without a parent folder fail; otherwise the mods folder is that parent |
| UpdateHandlers.PrepareSpec | backend/src/commands/update_handlers.rs:44-66 | the checks, then the access check on the mods folder, whose refusal fails the command and reports the access event |
| UpdateHandlers.Prepare | backend/src/commands/update_handlers.rs:44-66 | the checks on the file system give the result, event and tree of their specification |
| UpdateHandlers.DownloadAndInstall | backend/src/commands/update_handlers.rs:68-462 | a failed download start fails with its message and starts nothing; otherwise the deliveries are received with the cancellation promises of `ReceiveAndAggregate`, only the last install started can end "cancelled", and the answer is the aggregation |
| UpdateHandlers.UpdateMods | backend/src/commands/update_handlers.rs:37-463 | the cancel flag is reset once the input is non-empty and is left raised exactly when a look at it saw a cancellation; the outcome is the checks, the download and the aggregation of the installs, and no cancellation requested means none took effect |
| DownloadHandlers.ConflictReworded | backend/src/commands/download_handlers.rs:145-157 | an installer report `CORRUPTED_MOD_CONFLICT:<folder>:<rest>` is answered as `CORRUPTED_MOD_CONFLICT:<folder>:<id>:<title or id>` |
| DownloadHandlers.ShortConflictFails | backend/src/commands/download_handlers.rs:146-164 | a report with the conflict prefix but fewer than three `:`-separated parts is answered as an ordinary install failure |
| DownloadHandlers.ConflictMessageFields | backend/src/commands/download_handlers.rs:156 | the interface can split the conflict answer back into its four fields when none of them holds a `:` |
| DownloadHandlers.Receive | backend/src/commands/download_handlers.rs:59-169 | a start failure, an empty channel or a channel error fails with its own message and changes nothing; a delivered mod is handed to the installer with no folder name, no backup and the looked-up title; a failed install is reported (re-worded for a conflict); a successful one gets its `.lastupdated` marker and nothing else changes |
| DownloadHandlers.DownloadMod | backend/src/commands/download_handlers.rs:13-196 | a mod already downloading is refused with nothing changed; a refused access check reports its event; otherwise the ID is registered and released again whatever happens, and the download is received and installed with the title and time of the batch lookup, else the single lookup, else none and now |
| DownloadHandlers.DownloadRegistered | backend/src/commands/download_handlers.rs:33-177 | the ID is taken into the registry and released on every way out, so the registry ends as it began |
| DownloadHandlers.ContinueDownloadWithDecision | backend/src/commands/download_handlers.rs:200-303 | after the access check, a missing downloaded folder fails; otherwise the installer gets the user's overwrite decision; only a successful install writes the `.lastupdated` marker (time from the second lookup, else now) and releases the registry entry |
| IgnoreHandlers.MarkerWriteIntoAbout | backend/src/services.rs:166-180 | in a folder whose `About` directory exists, writing a marker sets exactly the marker path to the time's text, unless a directory stands there |
| IgnoreHandlers.MarkersWritten | backend/src/commands/ignore_handlers.rs:51-57 | writing the marker into folders that all have an `About` directory: every such marker that is not a directory holds the time, and every other path is as it was |
| IgnoreHandlers.WriteMarkers | backend/src/commands/ignore_handlers.rs:51-57 | the writes of a marker (`.ignoredupdate` here, `.lastupdated` for the update and older ignore commands) into every folder, in turn, give the markers specification's tree |
| IgnoreHandlers.ProcessIgnoreMod | backend/src/commands/ignore_handlers.rs:39-60 | an error only when the path has no parent; the folders chosen are exactly the folders of the mods folder holding the ID; the marker goes into each of them |
| IgnoreHandlers.IgnoreMarksEveryFolder | backend/src/commands/ignore_handlers.rs:39-60 | every folder a mod's task chose holds the ignore marker with the mod's time afterwards, unless a directory stands in its place, and nothing outside those markers changes |
| IgnoreHandlers.IgnoreMarkReadsBack | backend/src/commands/ignore_handlers.rs:39-60 | the marker a task wrote reads back, through the ignored-timestamp lookup, as the mod's time when that time is a positive `i64` |
| IgnoreHandlers.IgnoreJobs | backend/src/commands/ignore_handlers.rs:62-86 | one task per mod in the order given |
| IgnoreHandlers.EveryModHasAJob | backend/src/commands/ignore_handlers.rs:62-86 | every mod gets a task recording its own time |
| IgnoreHandlers.EveryJobHasAMod | backend/src/commands/ignore_handlers.rs:62-86 | every task belongs to one of the mods |
| IgnoreHandlers.DetailedModsFirst | backend/src/commands/ignore_handlers.rs:18-21 | the mods with details come first in the order the tasks start |
| IgnoreHandlers.IgnoreJobsCoverInput | backend/src/commands/ignore_handlers.rs:18-86 | there is one task per mod: every mod gets a task recording its own time (its details' time, else the fetched time, else now), every task belongs to a mod, and the mods with details come first |
| IgnoreHandlers.IgnoreStep | backend/src/commands/ignore_handlers.rs:88-93 | task `i` runs on the tree the earlier tasks left and adds its folders' markers |
| IgnoreHandlers.RunIgnoreJobs | backend/src/commands/ignore_handlers.rs:88-104 | the tasks run in turn and each mod is reported as ignored, whatever happened to its files |
| IgnoreHandlers.IgnoreUpdate | backend/src/commands/ignore_handlers.rs:11-105 | no mods means no answer and no change; otherwise every mod is reported as ignored, in task order, and the tree is the one the tasks leave in turn |
| IgnoreHandlers.LastTaskMarks | backend/src/commands/ignore_handlers.rs:39-104 | after the command, each folder the last task chose holds that task's time as its ignore marker, unless a directory stands in the marker's place |
| IgnoreHandlers.CheckIgnoredUpdates | backend/src/commands/ignore_handlers.rs:109-151 | one entry per path given, true exactly when something exists at `About/.ignoredupdate`; a repeated path gets the same answer |
| IgnoreHandlers.UnmarksClear | backend/src/commands/ignore_handlers.rs:179-195 | after the removals no listed folder has an ignore marker file, and everything else is as it was |
| IgnoreHandlers.RemoveIgnoreMarkers | backend/src/commands/ignore_handlers.rs:179-195 | the removals give the unmarks specification's tree |
| IgnoreHandlers.UndoIgnoreMod | backend/src/commands/ignore_handlers.rs:174-197 | one mod's task: the folders chosen are those of its ID in its mods folder, and their markers are removed |
| IgnoreHandlers.UndoStep | backend/src/commands/ignore_handlers.rs:202-207 | undo task `i` runs on the tree the earlier tasks left |
| IgnoreHandlers.RunUndoTasks | backend/src/commands/ignore_handlers.rs:202-217 | the undo tasks run in turn and each mod is reported as undone |
| IgnoreHandlers.ModsPathsOf | backend/src/commands/ignore_handlers.rs:165-168 | the mods folder of each mod, in order; a path without a parent fails |
| IgnoreHandlers.UndoIgnoreUpdate | backend/src/commands/ignore_handlers.rs:155-218 | a path without a parent fails the command before any marker is removed; otherwise every mod is reported as undone, in input order, and the tree is the one the tasks leave in turn |
| IgnoreHandlers.UndoClearsIgnored | backend/src/commands/ignore_handlers.rs:174-197 | after a mod's undo task the ignored-timestamp lookup finds nothing in any of its folders whose marker could be read (no directory at the marker, the folder and its `About` not files) |
| BackupHandlers.BackupPathFor | backend/src/commands/backup_handlers.rs:17-19 | the backup of a mod lives directly in the backup directory, under the mod folder's own name |
| BackupHandlers.CheckBackup | backend/src/commands/backup_handlers.rs:11-56 | without a backup directory: no backup and no path; a mod path without a folder name fails; otherwise the backup path is reported, with a backup exactly when something exists there, dated exactly when there is one, and a metadata failure on an existing backup fails the command |
| BackupHandlers.BatchAgreesWithSingle | backend/src/commands/backup_handlers.rs:60-145 | each batch entry agrees with the single check where that succeeds, reports no backup where its metadata call fails, and is missing exactly where the single check rejects the path |
| BackupHandlers.CheckBackups | backend/src/commands/backup_handlers.rs:60-145 | an entry for exactly the mod paths that have one (every path without a backup directory), each the batch entry of its path |
| BackupHandlers.PathGuards | backend/src/commands/backup_handlers.rs:164-183 | the path checks pass exactly when neither the mod path nor the backup directory lies at or below the other, and then give a backup path inside the backup directory that differs from the mod path |
| BackupHandlers.OnlyTheFirstGuardRefuses | backend/src/commands/backup_handlers.rs:164-183 | the later checks ("Invalid backup path", "cannot be the same") never fire: every refusal is the separateness one |
| BackupHandlers.StepsUpTo | backend/src/commands/backup_handlers.rs:196-229 | the watcher registration always comes first and is always released last: by the explicit lift after a finished restore, by the guard's drop on every earlier exit; the mod folder is removed only when it existed and the restore got past that step |
| BackupHandlers.RestoreBackup | backend/src/commands/backup_handlers.rs:149-235 | the answer, access event, steps and tree after the restore are those of the restore specification |
| BackupHandlers.RestoreFromBackup | backend/src/commands/backup_handlers.rs:196-229 | the steps of a restore after the checks give the tree, answer and steps of their specification |
| BackupHandlers.RefusedBeforeDeleting | backend/src/commands/backup_handlers.rs:158-194 | every refusal comes before anything is deleted: paths that are not separate and a missing backup are refused, and a refused restore has taken no step and changed nothing but the access check's probe |
| BackupHandlers.RestoreReplacesModFolder | backend/src/commands/backup_handlers.rs:201-234 | a successful restore answers the mod path, leaves the mod folder holding exactly what the backup held, and the backup gone |
| BackupHandlers.RestoreStepsInOrder | backend/src/commands/backup_handlers.rs:196-229 | the watcher registration comes first and is lifted exactly when the restore succeeds, after removing the mod folder (when there was one), copying the backup and deleting it, in that order |
| BackupHandlers.StepsInOrder | backend/src/commands/backup_handlers.rs:196-229 | the steps taken on the tree after the access check, in order |
| BackupHandlers.StepsReplaceModFolder | backend/src/commands/backup_handlers.rs:201-225 | after the steps the mod folder mirrors the backup and the backup is gone |
| BackupHandlers.ModFolderCleared | backend/src/commands/backup_handlers.rs:201-210 | after the removal step the mod folder is gone and the backup is as it was |
| BackupHandlers.CopyThenDelete | backend/src/commands/backup_handlers.rs:212-225 | copying the backup into the cleared mod folder and then deleting the backup leaves its contents in the mod folder |
| BackupHandlers.ResultMapKeys | backend/src/commands/backup_handlers.rs:265-287 | one entry per input path, and no other key |
| BackupHandlers.ResultMapLast | backend/src/commands/backup_handlers.rs:265-287 | the entry of a path is the answer of its last restore, a success exactly when that restore answered Ok |
| BackupHandlers.RestoredInTurnAt | backend/src/commands/backup_handlers.rs:248-266 | each restore in the chain is the one its mod path calls for, on the tree the previous one left |
| BackupHandlers.RestoreBackups | backend/src/commands/backup_handlers.rs:239-288 | each mod path is restored in turn from the same backup directory, and the answers are collected into the result map |
| WorkshopHandlers.GetFileDetails | backend/src/commands/workshop_handlers.rs:10-32 | with a batch answer: a detail from it exactly when it is non-empty, else "No file details found"; with a failed batch: the client's answer, and its failure reports the batch's error |
| WorkshopHandlers.CollectionFlagMatchesClient | backend/src/commands/workshop_handlers.rs:104-127 | the commands' file-type rule agrees with the client's page rule, except that where the client fails for want of the page the commands answer "not a collection" |
| WorkshopHandlers.IsCollection | backend/src/commands/workshop_handlers.rs:99-156 | with a batch detail its file type decides (2 yes, 0 scrapes the page, false on a failed scrape, otherwise no); with no detail or a failed batch the client's `is_collection` answers and its failure is the command's |
| WorkshopHandlers.GetCollectionDetails | backend/src/commands/workshop_handlers.rs:291-302 | the client's list of the collection's mods, or its error re-worded |
| WorkshopHandlers.FetchBatchDetails | backend/src/commands/workshop_handlers.rs:58-71 | one batch: the batch answer, or each ID's own answer when the batch fails |
| WorkshopHandlers.CollectDetails | backend/src/commands/workshop_handlers.rs:54-78 | the batches of 50 in turn, their details appended in batch order |
| WorkshopHandlers.DetailsAnswerMeaning | backend/src/commands/workshop_handlers.rs:80-92 | an ID is a key exactly when it was asked for or some detail carries it; null exactly when asked for and no detail carries it; otherwise the last detail carrying it |
| WorkshopHandlers.InsertDetails | backend/src/commands/workshop_handlers.rs:81-85 | each detail goes in under its own ID, a later one replacing an earlier one |
| WorkshopHandlers.FillMissing | backend/src/commands/workshop_handlers.rs:87-92 | null goes in for each asked-for ID that is not yet a key |
| WorkshopHandlers.GetFileDetailsBatch | backend/src/commands/workshop_handlers.rs:36-95 | nothing for no IDs; otherwise the unique IDs in batches of 50 and the answer object built from their details |
| WorkshopHandlers.ToScrapeMembers | backend/src/commands/workshop_handlers.rs:224-250 | the IDs left to scrape are exactly the asked-for IDs whose detail has file type 0 |
| WorkshopHandlers.FirstPass | backend/src/commands/workshop_handlers.rs:228-250 | the direct answers and the IDs left to scrape |
| WorkshopHandlers.ScrapeAll | backend/src/commands/workshop_handlers.rs:252-275 | each scraped ID gets the page's answer, or false when the scrape fails |
| WorkshopHandlers.AnswersCombine | backend/src/commands/workshop_handlers.rs:224-284 | the direct answers and the scraped ones together make the answer object |
| WorkshopHandlers.IsCollectionBatch | backend/src/commands/workshop_handlers.rs:160-287 | nothing for no IDs; otherwise the details of the unique IDs, the file-type rule for each, and the scrapes of the type-0 ones |
| WorkshopHandlers.CollectionAnswerKeys | backend/src/commands/workshop_handlers.rs:277-284 | every unique ID is a key and nothing else is; an ID without details answers false |
| WorkshopHandlers.GetCollectionDetailsBatch | backend/src/commands/workshop_handlers.rs:306-348 | one key per collection asked for, holding the client's list of its mods, or an empty list when that fails |
| WorkshopHandlers.OneAgreesWithBatch | backend/src/commands/workshop_handlers.rs:10-287 | when the batch answers one ID with its own details, the single and the batch commands give the same detail and the same collection answer |
| BackendCommands.ByIdKeys | backend/src/commands.rs:84-87 | the lookup by ID holds exactly the given mods' IDs, each mapping to the last given mod with that ID (no later mod carries it), as a later `insert` replaces an earlier one |
| BackendCommands.FirstOrphan | backend/src/commands.rs:91-95 | the scan stops at the first downloaded mod whose ID is not among the given mods, every one before it having an original |
| BackendCommands.UpdateMods | backend/src/commands.rs:50-199 | the answer and the installs asked for are those of the command's specification on the download's outcome; the tree afterwards is the old one with the `.lastupdated` markers of the installs that succeeded written in turn, none for a refused command |
| BackendCommands.RunInstalls | backend/src/commands.rs:89-196 | each install task answers its original with whether the install succeeded, and a successful one then writes the mod's update time into the markers of every folder of its ID in the mods folder |
| BackendCommands.MarkJobsAreSuccesses | backend/src/commands.rs:99-158 | the marker tasks are exactly the answers marked updated, each recording that mod's details time, else now |
| BackendCommands.UpdateMarksAreSuccesses | backend/src/commands.rs:97-158 | a refused command writes no markers; otherwise the marker tasks are exactly the downloads whose install succeeded, each with the update time of the given mod it was installed for |
| BackendCommands.UpdateAnswerMeaning | backend/src/commands.rs:55-198 | an empty list, a failed or empty download and a download without an original all refuse the command before any install; otherwise one answer per downloaded mod, in order, a given mod of that ID whose `updated` flag says whether its install succeeded |
| BackendCommands.RestoreBackup | backend/src/commands.rs:369-441 | the tree and answer are the restore's specification on the old tree |
| BackendCommands.RestoreOutcome | backend/src/commands.rs:369-441 | paths that are not separate are refused with the first guard's message and a missing backup with "not found", both leaving the tree unchanged; a later failure keeps the backup; success leaves the mod folder holding exactly what the backup held |
| BackendCommands.FailureKeepsBackup | backend/src/commands.rs:410-440 | a restore that fails after the guards leaves the backup as it was |
| BackendCommands.AgreesWithHandler | backend/src/commands.rs:369-441 | the older restore does what the handler's restore does once the mods folder passes the access check |
| BackendCommands.RestoredInTurnAt | backend/src/commands.rs:445-492 | each restore of the chain is the one its mod path calls for, on the tree the previous one left |
| BackendCommands.RestoreBackups | backend/src/commands.rs:445-492 | an empty list answers an empty map; otherwise the restores run in turn and the answers are keyed by mod path, the last one winning |
| BackendCommands.IgnoreUpdate | backend/src/commands.rs:496-641 | an empty list changes nothing; otherwise one task per mod, those with details first, each writing its time (details, else the batched lookup with its single-lookup fallback, else now) as the `.lastupdated` marker of every folder of its ID beside the mod, in turn, and every task is reported as ignored |
| BackendCommands.TaskModsAreInputMods | backend/src/commands.rs:505-615 | the two groups of tasks together hold the given mods, each as often as it was given |
| BackendCommands.IgnoredCoversInput | backend/src/commands.rs:496-641 | one task and one report entry per given mod: the tasks are the given mods with details first, each on its own ID and path, and the report names them in that order |
| BackendCommands.LastTaskReadsBack | backend/src/commands.rs:571-594 | where a task's time is a positive `i64`, the update check reads that time back from every folder the last task marked, whatever the file times say |
| BackendCommands.Fetch | backend/src/commands.rs:973-1119 | an ID already in flight is refused and nothing changes; otherwise the download and install follow the fetch specification, and the ID is released on every way out |
| BackendCommands.DownloadMod | backend/src/commands.rs:973-1119 | the title and update time come from the batch lookup's last answer, else the single lookup, else no title and now; then the shared fetch |
| BackendCommands.FetchOutcome | backend/src/commands.rs:999-1119 | a failure before the install changes nothing and asks for no install; only the first downloaded mod is installed; a failed install changes nothing; a successful one answers the installed path and writes the update time into its `.lastupdated` marker |
| FrontendCommands.FindIndex | frontend/src-tauri/src/commands.rs:93-95 | `find` stops at the first mod with the ID, every mod before it having another ID, or at the end when there is none |
| FrontendCommands.UpdateMods | frontend/src-tauri/src/commands.rs:50-152 | the answer and the installs asked for are those of the command's specification on the download's outcome; the tree afterwards holds the `.lastupdated` markers written after each install that succeeded, also when a later one ends the command |
| FrontendCommands.InstallAll | frontend/src-tauri/src/commands.rs:92-151 | the loop gives the answer, requests and marker writes of its specification, in turn |
| FrontendCommands.MarksCount | frontend/src-tauri/src/commands.rs:92-151 | as many marker tasks as installs that succeeded: at most the failed install that ends the command goes without, and the command succeeds exactly when every download got its task |
| FrontendCommands.MarkAt | frontend/src-tauri/src/commands.rs:108-138 | the marker task of a download follows an install of it that succeeded and records the update time of the first given mod of its ID |
| FrontendCommands.MarksFollowInstalls | frontend/src-tauri/src/commands.rs:92-151 | every install that succeeded, and only those, is followed by its marker task, in download order |
| FrontendCommands.RequestsInTurn | frontend/src-tauri/src/commands.rs:92-141 | installs are asked for in download order, each for the first given mod of the download's ID, and every install but the last one asked for succeeded |
| FrontendCommands.InTurnSucceeds | frontend/src-tauri/src/commands.rs:92-151 | the command succeeds exactly when every downloaded mod was asked to be installed and every install succeeded |
| FrontendCommands.InTurnLengths | frontend/src-tauri/src/commands.rs:92-151 | a successful command answers once per download and asked for one install per download |
| FrontendCommands.InTurnAnswerAt | frontend/src-tauri/src/commands.rs:142-149 | the answer for a download is the first given mod of its ID under the installed path, its folder the path's last part, and marked updated |
| FrontendCommands.InTurnAnswers | frontend/src-tauri/src/commands.rs:92-151 | a successful command answers once per download, in order, each answer as `InTurnAnswerAt` describes |
| FrontendCommands.InTurnFailure | frontend/src-tauri/src/commands.rs:93-111 | a failed command names its cause: the download after the last install asked for has no original, or the last install failed and its message is passed on |
| FrontendCommands.DownloadMod | frontend/src-tauri/src/commands.rs:408-530 | the older download protocol with the fixed download folder and no title; the update time is the single lookup's, else now |
| FrontendCommands.FirstParentless | frontend/src-tauri/src/commands.rs:331-333 | the mods are taken in turn up to the first whose path has no parent, every one before it having one |
| FrontendCommands.GetFileDetails | frontend/src-tauri/src/commands.rs:365-374 | the client's details for the ID, or its error behind "Failed to fetch file details" |
| FrontendCommands.IgnoreUpdate | frontend/src-tauri/src/commands.rs:307-361 | each mod in turn writes its time (details, else the client's lookup, else now) as the `.lastupdated` marker of every folder of its ID beside it and is reported as ignored; a path without a parent ends the command with "Cannot get mods path", keeping the markers already written |
| FrontendCommands.IgnoreOutcome | frontend/src-tauri/src/commands.rs:307-361 | the command succeeds exactly when every mod path has a parent, and then names every mod in order; each task carries its mod's ID, path, and the details' or lookup's time |
| FrontendCommands.IsCollection | frontend/src-tauri/src/commands.rs:378-389 | the client's answer for the ID, or its error behind "Failed to check if collection" |
| FrontendCommands.LookupsAgreeWithHandlers | frontend/src-tauri/src/commands.rs:365-389 | where the batch query fails, the handlers' `get_file_details` and `is_collection` give what these give |

## Left out

- ModManager.InstallAs: requires `SeparateAreas` (the mods folder lies neither above nor below the mod's own folder, the download folder or the backup directory). The source checks none of this. With overlapping paths its recursive copy would copy a folder into itself, which the model does not follow.
- ModManager.UpdateMod: the same `SeparateAreas` requirement as `InstallAs`, for the same reason.
- ModUpdater.UpdateMod: the same `SeparateAreas` requirement as the backend installer, for the same reason.
- FileSystem.Fs.CopyDirAll: requires that neither path lies below the other and that the destination does not exist yet. The source's recursion into its own destination does not terminate. Its callers create the destination fresh.
- ModManager.SanitizeFolderName: counts the 200-character limit in chars. `truncate(200)` counts UTF-8 bytes and panics when byte 200 falls inside a character. Names outside ASCII are therefore not modelled byte-exactly, and the panic is not modelled.
- ModQuery.CheckSpec: computes `timeUpdated - reference` on unbounded integers. The source subtracts `i64` values and converts the difference to `f64`, so the overflow for a remote time below `i64::MIN + reference` is not modelled. In the ignored-timestamp branch both operands are whole seconds, so the float comparison `> 1.0` is the integer comparison `> 1`. In the last-updated branch the file time and the clock have sub-second precision; the model reads them rounded up to whole seconds, and `ModQuery.RoundedUpTimesExact` proves that this gives the source's truncated `as_secs()` difference exactly.
- FrontendModQuery.FrontendCheckSpec: the same unbounded subtraction as `ModQuery.CheckSpec`. Its file times are read rounded up in the same way.
- SteamCmdClient.Greedy: instance loads are unbounded naturals. The source adds to `u64` loads with `+=`, which would overflow only past `u64::MAX` bytes in total.
- ModQuery.UniqueIds: the source collects the IDs through a `HashSet`, whose iteration order is unspecified. The model keeps the first occurrences in input order.
- ModQuery.QueryModsForUpdates: the answer's order follows the listing. The source takes a `HashMap`'s values, whose order is unspecified.
- FrontendModQuery.QueryModsForUpdates: the result is in first-seen order. The source takes the values of a `HashMap`, whose order is unspecified.
- WorkshopClient.SteamApi.ScrapeCollectionModIds: the IDs come out in first-link order. The source collects them through a `HashSet`, whose order is unspecified.
- UpdateHandlers.UpdateMods: the cancel flag is sticky. A cancel that arrives after the last look is not modelled, and neither is a reset by another command while the run is going on.
- UpdateHandlers.UpdateMods: the emit-only look at the flag after the loop (update_handlers.rs:333) is not modelled. It only sends an event.
- UpdateHandlers.UpdateMods: each install task's `.lastupdated` writes (update_handlers.rs:262-274) are not applied to the tree. The installer, and the writes it triggers, are an oracle on the outcome; `ModManager.UpdateMod` models the install itself.
- UpdateHandlers.UpdateMods: the install tasks run one after another in delivery order. In the source they are spawned concurrently and joined, and their interleaving is not modelled.
- BackendCommands.UpdateMods: the installer is an oracle on its outcome, so the install's own file changes are not applied to the tree. The `.lastupdated` writes that follow it are applied.
- FrontendCommands.UpdateMods: the installer is an oracle on its outcome, as in `BackendCommands.UpdateMods`.
- BackendCommands.RestoreBackups: the restores run one after another in input order. The source runs them concurrently with `join_all` (commands.rs:470), so interleaved restores of overlapping paths are not modelled.
- BackupHandlers.RestoreBackups: the restores run one after another, as in `BackendCommands.RestoreBackups`.
- IgnoreHandlers.IgnoreUpdate: the per-mod tasks run one after another in the order they are spawned. The source runs them concurrently.
- IgnoreHandlers.CheckIgnoredUpdates: the per-path checks run one after another. The source runs them as concurrent tasks and reports a task that fails as `false`. Tasks do not fail in the model.
- BackendCommands.IgnoreUpdate: the tasks run one after another in spawn order. The source runs them concurrently.
- BackendCommands.Fetch: the registry check and the mark (commands.rs:981-994) are one step here. The source takes two separate locks, so two concurrent requests for the same ID can both pass the check. That race is not modelled.
- DownloadHandlers.DownloadMod: the "already downloading" check and the mark are one step here. The source takes the downloader's lock twice (download_handlers.rs:21-27 and :34-38), with the access check in between, so two concurrent requests for the same ID can both pass the check. That race is not modelled.
- Services.ValidateModsPath: the errors are `Mods path does not exist` and `Mods path is not a directory`. The source appends `: <path>` to both (services.rs:39, :43).
- ModQuery.ListInstalledMods: a missing mods folder gives `Mods path does not exist`. In the source, the io error of `metadata` propagates. The `not a directory` error lacks the source's `: <path>` suffix.
- ModManager.FindExistingModFolder: the error is `Failed to read mods directory`. The source appends `: <io error>` (mod_manager.rs:153), and the file system model has no io error texts.
- ModManager.Backup: the errors are the fixed prefixes `Failed to create backup directory`, `Failed to remove old backup` and `Failed to create backup`. The source appends `: <io error>` to each (mod_manager.rs:99, :105, :111).
- ModManager.Prepare: the errors are the fixed prefixes `Failed to create mods directory` and `Failed to remove existing mod folder`. The source appends `: <io error>` (mod_manager.rs:93, :124).
- ModManager.InstallAs: `Failed to copy mod` lacks the source's `: <io error>` suffix (mod_manager.rs:143), and `Source mod folder not found` lacks the debug-printed source path (mod_manager.rs:138).
- ModManager.UpdateMod: the search failure is `Failed to find existing mod folder: Failed to read mods directory`, without the io error text the source puts in both places (mod_manager.rs:58, :153). Its other errors are those of `Backup`, `Prepare` and `InstallAs`, with the same missing suffixes.
- ModUpdater.UpdateMod: its errors are the backend's fixed `Failed to ...` texts. The front end's installer propagates the raw io errors with `?` (mod_updater.rs:73-110), so its error texts are not modelled; only which step fails is.
- BackendCommands.RestoreBackup: `Failed to remove current mod folder`, `Failed to copy backup` and `Failed to delete backup` are the fixed prefixes. The source appends `: <io error>` (commands.rs:416, :427, :433), which the model does not carry.
- BackupHandlers.RestoreFromBackup: `CopyFailed`, `RemoveFailed` and `DeleteFailed` are the fixed prefixes of the source's messages. The io error text the source appends is not modelled, because the file system model has no io error texts.
- BackupHandlers.RestoreBackup: its errors carry the fixed prefixes of `RestoreFromBackup`, without the io error text.
- ExportHandlers.ExportModsToClipboard: the clipboard error is `Failed to copy to clipboard`. The source appends `: <error>`, and the clipboard's error text is not part of the model.
- WorkshopClient.CapturesAreLinkedIds: a captured ID is a run of ASCII digits `0`-`9`. The source's pattern `(\d+)` (workshop_client.rs:174) is Unicode-aware and would also capture other decimal digits, such as Arabic-Indic ones. Those are not modelled.
- ModQuery.IgnoredTimestampSpec: file contents are text. A `.ignoredupdate` whose bytes are not valid UTF-8 makes `read_to_string` fail with `InvalidData`, and the source returns an error, but this case has no counterpart in the model. The same holds for the other marker readers (`.lastupdated`, `PublishedFileId.txt`).
- ModQuery.LastUpdatedFacts: a missing mod folder gives the fixed text `Mod folder not found`. The source propagates the io error of `fs::metadata(mod_path)?` (backend mod_query.rs:231, frontend mod_query.rs:158), whose text the file system model does not have.
- FrontendModQuery.QueryModsForUpdates: a missing mod folder aborts the query with the fixed text `Mod folder not found`. In the source, `?` (frontend mod_query.rs:409) passes on the io error of `fs::metadata` as the query's own error, and that io error text is not modelled.
- ModQuery.IgnoredTimestampFacts: the read error's text is not modelled, only that there is one.
- Services.FindAllModFoldersWithId: the source asks `mod_scanner::query_mod_id`, which is not part of this model. The model takes it to answer as `ModQuery.QueryModId` does, through `ModQuery.HoldsMod`. The scanner may also consult `About/About.xml`, and that is not modelled.
- ModManager.UpdateMod: the folder search uses `mod_scanner::query_mod_id` (mod_manager.rs:3), taken to be `ModQuery.QueryModId` as in `Services.FindAllModFoldersWithId`.
- WorkshopClient.SteamApi.GetFileDetails: the source's `api_cache::Cache` is not part of this model. The client's three caches are the TTL cache of `cache.rs` (`TtlCache.Cache`), which that cache is taken to behave like.
- DownloadHandlers.DownloadMod: the installer's ninth argument `force_overwrite_corrupted` and any corruption check behind it are not modelled. The installer is an oracle on its outcome.
- SteamCmdClient.Downloader: spawning SteamCMD, its stdout/stderr readers, the file watcher, sleeps and `kill_our_processes` are left out. Each batch's outcome is a parameter, and detection is "folder non-empty before the deadline" on an integer clock.
- FrontendDownloader.PollingDetectorLimits: the one-second polling sleeps are steps of an integer clock, and the progress log timer is not modelled.
- AccessCheck.CheckDirectoryAccess: what the platform permits is a parameter, and io errors other than the permissions it names are not modelled.
- Events sent to the user interface (`emit`), log lines, and the mod watcher are not modelled. The watcher's ignore and unignore calls are kept only as recorded steps.
- HTTP requests to the Steam Web API and the Workshop pages are not modelled. Their answers are parameters, and a retry's answers are a sequence.
- Services.FetchBatchTimes: one `now` stands in for the clock. The source reads `SystemTime::now()` again for each ID whose lookup fails (services.rs:137), so the fallback times of one batch may differ by the time the lookups take.
