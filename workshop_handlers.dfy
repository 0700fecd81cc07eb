// The Workshop commands: file details and collection checks for one ID
// or many, and the mods of collections. Each goes through the batch
// details query first and falls back on the shared client's own
// requests; the answers of both are parameters here.

module WorkshopHandlers {
  import opened Common
  import opened ModQuery
  import opened WorkshopClient
  import opened Services

  /** The shared client's `get_file_details` for one ID. */
  type Single = string -> Result<Details, SteamError>

  /** Why a Workshop command failed. */
  datatype HandlerError =
    | NoFileDetailsFound                          // "No file details found"
    | FileDetailsFailed(batchError: BatchError)      // "Failed to fetch file details: {e}", e the batch query's error
    | CollectionCheckFailed(cause: SteamError)    // "Failed to check if collection: {e}"
    | CollectionDetailsFailed(cause: SteamError)  // "Failed to fetch collection details: {e}"

  function Last<T>(xs: seq<T>): T
    requires xs != []
  {
    xs[|xs| - 1]
  }

  // ---------------------------------------------------------------
  // One ID.

  /**
   * `get_file_details`: the last detail of the batch answer for the one
   * ID; no detail is an error; a failed batch falls back on the
   * client's own request, whose failure reports the batch's error.
   */
  function GetFileDetails(modId: string, query: BatchQuery, single: Single): (r: Result<Details, HandlerError>)
    ensures query([modId]).Ok? ==>
              && (r.Ok? <==> query([modId]).value != [])
              && (r.Ok? ==> r.value in query([modId]).value)
              && (r.Err? ==> r.error == NoFileDetailsFound)
    ensures query([modId]).Err? ==>
              && (r.Ok? <==> single(modId).Ok?)
              && (r.Err? ==> r.error == FileDetailsFailed(query([modId]).error))
  {
    var answer := query([modId]);
    if answer.Ok? then
      if answer.value != [] then Ok(Last(answer.value)) else Err(NoFileDetailsFound)
    else if single(modId).Ok? then Ok(single(modId).value)
    else Err(FileDetailsFailed(answer.error))
  }

  /**
   * The rule of the collection commands: file type 2 is a collection,
   * type 0 asks the page (a failed scrape counts as not a collection),
   * any other type is not.
   */
  function CollectionFlag(fileType: int, scraped: Result<bool, SteamError>): bool
  {
    fileType == 2 || (fileType == 0 && scraped.Ok? && scraped.value)
  }

  /**
   * The commands' rule agrees with the client's `is_collection` rule on
   * the same page, except that where the client fails for want of the
   * page the commands answer "not a collection".
   */
  lemma CollectionFlagMatchesClient(fileType: int, page: Option<string>)
    ensures var scraped := if page.None? then Err(PageFailed) else Ok(IsCollectionPage(page.value));
            && (CollectionDecision(fileType, page).Ok? ==> CollectionFlag(fileType, scraped) == CollectionDecision(fileType, page).value)
            && (CollectionDecision(fileType, page).Err? <==> fileType == 0 && page.None?)
            && (CollectionDecision(fileType, page).Err? ==> !CollectionFlag(fileType, scraped))
  {
  }

  /**
   * `is_collection`: with a batch detail, its file type decides (type 0
   * scrapes the page); with no detail or a failed batch, the client's
   * own `is_collection` answers, and its failure is the command's.
   */
  function IsCollection(modId: string, query: BatchQuery, scrape: string -> Result<bool, SteamError>,
                        check: string -> Result<bool, SteamError>): (r: Result<bool, HandlerError>)
    ensures query([modId]).Ok? && query([modId]).value != [] ==>
              r == Ok(CollectionFlag(Last(query([modId]).value).fileType, scrape(modId)))
    ensures query([modId]).Err? || query([modId]).value == [] ==>
              && (r.Ok? <==> check(modId).Ok?)
              && (r.Ok? ==> r.value == check(modId).value)
              && (r.Err? ==> r.error == CollectionCheckFailed(check(modId).error))
  {
    var answer := query([modId]);
    if answer.Ok? && answer.value != [] then
      var detail := Last(answer.value);
      var isCollection := detail.fileType == 2;
      if !isCollection && detail.fileType == 0 then
        var scraped := scrape(modId);
        if scraped.Ok? then Ok(scraped.value) else Ok(false)
      else Ok(isCollection)
    else
      var checked := check(modId);
      if checked.Ok? then Ok(checked.value) else Err(CollectionCheckFailed(checked.error))
  }

  /** `get_collection_details`: the client's list of the collection's mods, or its error. */
  function GetCollectionDetails(collectionId: string, collection: string -> Result<seq<Details>, SteamError>)
    : (r: Result<seq<Details>, HandlerError>)
    ensures r.Ok? <==> collection(collectionId).Ok?
    ensures r.Ok? ==> r.value == collection(collectionId).value
    ensures r.Err? ==> r.error == CollectionDetailsFailed(collection(collectionId).error)
  {
    var found := collection(collectionId);
    if found.Ok? then Ok(found.value) else Err(CollectionDetailsFailed(found.error))
  }

  // ---------------------------------------------------------------
  // Many IDs, 50 per batch query.

  /** A failed batch's fallback: the client's details for each ID in turn, keeping the successes. */
  function SingleDetails(batch: seq<string>, single: Single): seq<Details>
  {
    if batch == [] then []
    else SingleDetails(batch[..|batch| - 1], single)
         + (if single(batch[|batch| - 1]).Ok? then [single(batch[|batch| - 1]).value] else [])
  }

  /** What one batch contributes: the batch answer, or the fallback when the batch query failed. */
  function BatchDetails(batch: seq<string>, query: BatchQuery, single: Single): seq<Details>
  {
    if query(batch).Ok? then query(batch).value else SingleDetails(batch, single)
  }

  /** The details of the first `k` batches, in batch order. */
  function DetailsUpTo(ids: seq<string>, k: nat, query: BatchQuery, single: Single): seq<Details>
    requires k <= NumBatches(|ids|)
  {
    if k == 0 then []
    else
      BatchStartsInside(k - 1, |ids|);
      DetailsUpTo(ids, k - 1, query, single) + BatchDetails(BatchSlice(ids, k - 1), query, single)
  }

  /** The details of all batches of `ids`. */
  function AllDetails(ids: seq<string>, query: BatchQuery, single: Single): seq<Details>
  {
    DetailsUpTo(ids, NumBatches(|ids|), query, single)
  }

  /** One batch: the batch query, or each ID on its own when it fails. */
  method FetchBatchDetails(batch: seq<string>, query: BatchQuery, single: Single) returns (ds: seq<Details>)
    ensures ds == BatchDetails(batch, query, single)
  {
    var answer := query(batch);
    if answer.Ok? {
      return answer.value;
    }
    ds := [];
    for i := 0 to |batch|
      invariant ds == SingleDetails(batch[..i], single)
    {
      assert batch[..i + 1][..i] == batch[..i];
      var detail := single(batch[i]);
      if detail.Ok? {
        ds := ds + [detail.value];
      }
    }
    assert batch[..|batch|] == batch;
  }

  /** The batches of 50 in turn, their details appended in batch order. */
  method CollectDetails(ids: seq<string>, query: BatchQuery, single: Single) returns (all: seq<Details>)
    ensures all == AllDetails(ids, query, single)
  {
    all := [];
    var b := 0;
    while b < NumBatches(|ids|)
      invariant b <= NumBatches(|ids|)
      invariant all == DetailsUpTo(ids, b, query, single)
    {
      BatchStartsInside(b, |ids|);
      var start := b * BatchCount;
      var end := if start + BatchCount < |ids| then start + BatchCount else |ids|;
      var details := FetchBatchDetails(ids[start..end], query, single);
      all := all + details;
      b := b + 1;
    }
  }

  /** The `get_file_details_batch` object: every detail under its ID (the last one wins), and null for each ID without one. */
  function DetailsAnswer(dm: map<string, Details>, ids: seq<string>): map<string, Option<Details>>
  {
    map k | k in dm.Keys + (set x | x in ids) :: if k in dm then Some(dm[k]) else None
  }

  /**
   * An ID is a key exactly when it was asked for or some detail carries
   * it; its value is null exactly when it was asked for and no detail
   * carries it, and otherwise the last detail that carries it.
   */
  lemma DetailsAnswerMeaning(all: seq<Details>, ids: seq<string>, k: string)
    ensures var answer := DetailsAnswer(DetailsMap(all), ids);
            && (k in answer <==> k in ids || exists i :: 0 <= i < |all| && all[i].publishedfileid == k)
            && (k in answer && answer[k].None? <==> k in ids && forall i :: 0 <= i < |all| ==> all[i].publishedfileid != k)
            && (k in answer && answer[k].Some? ==>
                  && answer[k].value.publishedfileid == k
                  && exists i :: 0 <= i < |all| && all[i] == answer[k].value
                                 && forall j :: i < j < |all| ==> all[j].publishedfileid != k)
  {
    DetailsMapLast(all, k);
  }

  /**
   * `get_file_details_batch`: nothing for no IDs; otherwise the unique
   * IDs in batches of 50, then the answer object. `unique` is the
   * duplicate-free list the batches are cut from.
   */
  method GetFileDetailsBatch(modIds: seq<string>, query: BatchQuery, single: Single)
    returns (r: map<string, Option<Details>>, ghost unique: seq<string>)
    ensures modIds == [] ==> r == map[]
    ensures NoDuplicates(unique) && forall x :: x in unique <==> x in modIds
    ensures r == DetailsAnswer(DetailsMap(AllDetails(unique, query, single)), unique)
  {
    unique := [];
    if |modIds| == 0 {
      return map[], unique;
    }
    var ids := UniqueIds(modIds);
    unique := ids;
    var all := CollectDetails(ids, query, single);
    r := InsertDetails(all);
    r := FillMissing(r, DetailsMap(all), ids);
  }

  /** The answer object's first pass: each detail under its ID, a later one replacing an earlier one. */
  method InsertDetails(all: seq<Details>) returns (r: map<string, Option<Details>>)
    ensures r == DetailsAnswer(DetailsMap(all), [])
  {
    r := map[];
    for i := 0 to |all|
      invariant r == DetailsAnswer(DetailsMap(all[..i]), [])
    {
      assert all[..i + 1][..i] == all[..i];
      r := r[all[i].publishedfileid := Some(all[i])];
    }
    assert all[..|all|] == all;
  }

  /** The answer object's second pass: null for each ID that is not yet a key. */
  method FillMissing(r0: map<string, Option<Details>>, ghost dm: map<string, Details>, ids: seq<string>)
    returns (r: map<string, Option<Details>>)
    requires r0 == DetailsAnswer(dm, [])
    ensures r == DetailsAnswer(dm, ids)
  {
    r := r0;
    for i := 0 to |ids|
      invariant r == DetailsAnswer(dm, ids[..i])
    {
      assert ids[..i + 1] == ids[..i] + [ids[i]];
      if ids[i] !in r {
        r := r[ids[i] := None];
      }
    }
    assert ids[..|ids|] == ids;
  }

  /** The `is_collection_batch` object: every unique ID, with the rule applied to its detail, or false without one. */
  function CollectionAnswer(dm: map<string, Details>, ids: seq<string>, scrape: string -> Result<bool, SteamError>)
    : map<string, bool>
  {
    map k | k in ids :: k in dm && CollectionFlag(dm[k].fileType, scrape(k))
  }

  /** A detail of file type 0, which only the page can decide. */
  predicate NeedsScrape(dm: map<string, Details>, k: string)
  {
    k in dm && dm[k].fileType == 0
  }

  /** The IDs to scrape, in order. */
  function ToScrape(dm: map<string, Details>, ids: seq<string>): seq<string>
  {
    if ids == [] then []
    else ToScrape(dm, ids[..|ids| - 1]) + (if NeedsScrape(dm, ids[|ids| - 1]) then [ids[|ids| - 1]] else [])
  }

  lemma {:induction false} ToScrapeMembers(dm: map<string, Details>, ids: seq<string>)
    ensures forall k :: k in ToScrape(dm, ids) <==> k in ids && NeedsScrape(dm, k)
  {
    if ids != [] {
      ToScrapeMembers(dm, ids[..|ids| - 1]);
      assert ids == ids[..|ids| - 1] + [ids[|ids| - 1]];
    }
  }

  /** The answers the first pass can give at once: every ID that needs no scrape. */
  function DirectAnswers(dm: map<string, Details>, ids: seq<string>): map<string, bool>
  {
    map k | k in ids && !NeedsScrape(dm, k) :: k in dm && dm[k].fileType == 2
  }

  /** The first pass over the unique IDs: the direct answers, and the IDs left to scrape. */
  method FirstPass(dm: map<string, Details>, ids: seq<string>) returns (r: map<string, bool>, toScrape: seq<string>)
    ensures r == DirectAnswers(dm, ids) && toScrape == ToScrape(dm, ids)
  {
    r := map[];
    toScrape := [];
    for i := 0 to |ids|
      invariant r == DirectAnswers(dm, ids[..i]) && toScrape == ToScrape(dm, ids[..i])
    {
      FirstPassStep(dm, ids, i);
      var id := ids[i];
      if id in dm {
        var isCollection := dm[id].fileType == 2;
        if isCollection {
          r := r[id := true];
        } else if dm[id].fileType == 0 {
          toScrape := toScrape + [id];
        } else {
          r := r[id := false];
        }
      } else {
        r := r[id := false];
      }
    }
    assert ids[..|ids|] == ids;
  }

  /** One more ID: a direct answer for it, or one more ID to scrape. */
  lemma FirstPassStep(dm: map<string, Details>, ids: seq<string>, i: nat)
    requires i < |ids|
    ensures !NeedsScrape(dm, ids[i]) ==>
              DirectAnswers(dm, ids[..i + 1]) == DirectAnswers(dm, ids[..i])[ids[i] := ids[i] in dm && dm[ids[i]].fileType == 2]
    ensures NeedsScrape(dm, ids[i]) ==> DirectAnswers(dm, ids[..i + 1]) == DirectAnswers(dm, ids[..i])
    ensures ToScrape(dm, ids[..i + 1]) == ToScrape(dm, ids[..i]) + (if NeedsScrape(dm, ids[i]) then [ids[i]] else [])
  {
    var front := ids[..i];
    var longer := ids[..i + 1];
    assert longer == front + [ids[i]];
    assert longer[..|longer| - 1] == front;
    assert forall k :: k in longer <==> k in front || k == ids[i];
  }

  /** The scraped answers: the page's verdict, or false when the scrape fails. */
  function Scraped(keys: seq<string>, scrape: string -> Result<bool, SteamError>): map<string, bool>
  {
    map k | k in keys :: scrape(k).Ok? && scrape(k).value
  }

  lemma ScrapedStep(keys: seq<string>, j: nat, scrape: string -> Result<bool, SteamError>)
    requires j < |keys|
    ensures Scraped(keys[..j + 1], scrape) == Scraped(keys[..j], scrape)[keys[j] := scrape(keys[j]).Ok? && scrape(keys[j]).value]
  {
    assert keys[..j + 1] == keys[..j] + [keys[j]];
  }

  /** The scrapes, in order: each ID gets the page's answer, or false when the scrape fails. */
  method ScrapeAll(r0: map<string, bool>, toScrape: seq<string>, scrape: string -> Result<bool, SteamError>)
    returns (r: map<string, bool>)
    ensures r == r0 + Scraped(toScrape, scrape)
  {
    r := r0;
    for j := 0 to |toScrape|
      invariant r == r0 + Scraped(toScrape[..j], scrape)
    {
      ScrapedStep(toScrape, j, scrape);
      var scraped := scrape(toScrape[j]);
      var isCollection := if scraped.Ok? then scraped.value else false;
      MergeUpdate(r0, Scraped(toScrape[..j], scrape), toScrape[j], isCollection);
      r := r[toScrape[j] := isCollection];
    }
    assert toScrape[..|toScrape|] == toScrape;
  }

  /** The direct answers and the scraped ones together make the answer object. */
  lemma AnswersCombine(dm: map<string, Details>, ids: seq<string>, scrape: string -> Result<bool, SteamError>)
    ensures DirectAnswers(dm, ids) + Scraped(ToScrape(dm, ids), scrape)
            == CollectionAnswer(dm, ids, scrape)
  {
    ToScrapeMembers(dm, ids);
  }

  /**
   * `is_collection_batch`: nothing for no IDs; otherwise the details of
   * the unique IDs in batches of 50, the file-type rule for each, and
   * the scrapes of the type-0 ones. The closing pass that fills in
   * missing IDs with false finds none.
   */
  method IsCollectionBatch(modIds: seq<string>, query: BatchQuery, single: Single,
                           scrape: string -> Result<bool, SteamError>)
    returns (r: map<string, bool>, ghost unique: seq<string>)
    ensures modIds == [] ==> r == map[]
    ensures NoDuplicates(unique) && forall x :: x in unique <==> x in modIds
    ensures r == CollectionAnswer(DetailsMap(AllDetails(unique, query, single)), unique, scrape)
  {
    unique := [];
    if |modIds| == 0 {
      return map[], unique;
    }
    var ids := UniqueIds(modIds);
    unique := ids;
    var all := CollectDetails(ids, query, single);
    var dm := BuildDetailsMap(all);
    var direct, toScrape := FirstPass(dm, ids);
    r := ScrapeAll(direct, toScrape, scrape);
    AnswersCombine(dm, ids, scrape);
    for i := 0 to |ids|
      invariant r == CollectionAnswer(dm, ids, scrape)
    {
      var id := ids[i];
      if id !in r {
        r := r[id := false];
      }
    }
  }

  /** Every unique ID of the batch answer is a key, and nothing else is. */
  lemma CollectionAnswerKeys(dm: map<string, Details>, ids: seq<string>, scrape: string -> Result<bool, SteamError>)
    ensures forall k :: k in CollectionAnswer(dm, ids, scrape) <==> k in ids
    ensures forall k :: k in ids && k !in dm ==> !CollectionAnswer(dm, ids, scrape)[k]
  {
  }

  /**
   * `get_collection_details_batch`: nothing for no IDs; otherwise each
   * unique collection with the client's list of its mods, or an empty
   * list when that fails.
   */
  method GetCollectionDetailsBatch(collectionIds: seq<string>, collection: string -> Result<seq<Details>, SteamError>)
    returns (r: map<string, seq<Details>>)
    ensures forall k :: k in r <==> k in collectionIds
    ensures forall k :: k in r ==>
              r[k] == (if GetCollectionDetails(k, collection).Ok? then GetCollectionDetails(k, collection).value else [])
  {
    r := map[];
    if |collectionIds| == 0 {
      return;
    }
    var ids := UniqueIds(collectionIds);
    for i := 0 to |ids|
      invariant forall k :: k in r <==> k in ids[..i]
      invariant forall k :: k in r ==> r[k] == (if collection(k).Ok? then collection(k).value else [])
    {
      assert ids[..i + 1] == ids[..i] + [ids[i]];
      var found := collection(ids[i]);
      var mods := if found.Ok? then found.value else [];
      r := r[ids[i] := mods];
    }
    assert ids[..|ids|] == ids;
  }

  // ---------------------------------------------------------------
  // One ID and many agree.

  /** The list of unique IDs of a one-ID request is that ID. */
  lemma UniqueOfOne(unique: seq<string>, id: string)
    requires NoDuplicates(unique) && forall x :: x in unique <==> x in [id]
    ensures unique == [id]
  {
    assert id in unique;
    var n := |unique|;
    assert unique[0] in unique && unique[n - 1] in unique;
    assert unique[0] == id == unique[n - 1];
  }

  /** The last detail of a list whose details all carry `id` is the one the map keeps. */
  lemma LastIsKept(ds: seq<Details>, id: string)
    requires ds != [] && forall i :: 0 <= i < |ds| ==> ds[i].publishedfileid == id
    ensures id in DetailsMap(ds) && DetailsMap(ds)[id] == Last(ds)
  {
    DetailsMapLast(ds, id);
    assert ds[|ds| - 1].publishedfileid == id;
    var i :| 0 <= i < |ds| && ds[i] == DetailsMap(ds)[id] && forall j :: i < j < |ds| ==> ds[j].publishedfileid != id;
    assert i == |ds| - 1;
  }

  /**
   * When the batch query answers the one ID with details of that ID,
   * `get_file_details` and `get_file_details_batch` for that ID give the
   * same detail, and `is_collection` and `is_collection_batch` the same
   * answer.
   */
  lemma OneAgreesWithBatch(id: string, unique: seq<string>, query: BatchQuery, single: Single,
                           scrape: string -> Result<bool, SteamError>, check: string -> Result<bool, SteamError>)
    requires NoDuplicates(unique) && forall x :: x in unique <==> x in [id]
    requires query([id]).Ok? && query([id]).value != []
    requires forall i :: 0 <= i < |query([id]).value| ==> query([id]).value[i].publishedfileid == id
    ensures var dm := DetailsMap(AllDetails(unique, query, single));
            && GetFileDetails(id, query, single).Ok?
            && DetailsAnswer(dm, unique)[id] == Some(GetFileDetails(id, query, single).value)
            && IsCollection(id, query, scrape, check) == Ok(CollectionAnswer(dm, unique, scrape)[id])
  {
    UniqueOfOne(unique, id);
    assert NumBatches(1) == 1;
    assert BatchSlice([id], 0) == [id];
    assert DetailsUpTo([id], 1, query, single) == [] + BatchDetails([id], query, single);
    assert AllDetails(unique, query, single) == query([id]).value;
    LastIsKept(query([id]).value, id);
  }
}
