// The Steam Workshop client of the backend: file details, the
// "is it a collection" decision and the list of a collection's mods,
// each behind a one-hour cache, with the scraping of Workshop pages
// spaced out by a rate limiter. The network is a parameter: `reply` is
// the answer to a details request, `query` the answer to a batch
// request, `page` the HTML of a Workshop page (`None` when fetching it
// failed). The clock is in milliseconds.

module WorkshopClient {
  import opened Common
  import opened Deserializers
  import opened ModQuery
  import opened TtlCache
  import opened ApiRateLimiter

  /** Every cache keeps its entries for an hour. */
  const CacheTtl: nat := 3_600_000

  /** Workshop pages are fetched at most once every two seconds. */
  const ScrapeDelay: nat := 2000

  function FileDetailsKey(id: string): string { "file-details-" + id }
  function IsCollectionKey(id: string): string { "is-collection-" + id }
  function CollectionDetailsKey(id: string): string { "collection-details-" + id }

  /** The address of a Workshop page. */
  function WorkshopPageUrl(id: string): string
  {
    "https://steamcommunity.com/sharedfiles/filedetails/?id=" + id
  }

  /** Different IDs never share a cache key. */
  lemma {:induction false} KeysDiffer(a: string, b: string)
    requires a != b
    ensures FileDetailsKey(a) != FileDetailsKey(b)
    ensures IsCollectionKey(a) != IsCollectionKey(b)
    ensures CollectionDetailsKey(a) != CollectionDetailsKey(b)
  {
    assert FileDetailsKey(a)[13..] == a && FileDetailsKey(b)[13..] == b;
    assert IsCollectionKey(a)[14..] == a && IsCollectionKey(b)[14..] == b;
    assert CollectionDetailsKey(a)[19..] == a && CollectionDetailsKey(b)[19..] == b;
  }

  /** Why a request of this client failed. */
  datatype SteamError = RequestFailed | ApiStatus(status: int) | BadJson | NoFileDetails | BadDetails | PageFailed

  /**
   * The answer to a single details request (no retries): the first
   * entry of `response.publishedfiledetails`, decoded.
   */
  function FirstDetails(a: Attempt): Result<Details, SteamError>
  {
    match a
    case SendFailed => Err(RequestFailed)
    case Responded(status, body) =>
      if !IsSuccess(status) then Err(SteamError.ApiStatus(status))
      else if body.None? then Err(BadJson)
      else if DetailsArray(body.value) == [] then Err(NoFileDetails)
      else if DecodeDetails(DetailsArray(body.value)[0]).None? then Err(BadDetails)
      else Ok(DecodeDetails(DetailsArray(body.value)[0]).value)
  }

  /** The entries of a cache after an operation, and what the operation answered. */
  datatype CacheRead<T, R> = CacheRead(entries: map<string, Entry<T>>, result: R)

  /**
   * `get_file_details` on the entries of the details cache: a live
   * cached value answers without a request; otherwise the request's
   * answer, which is cached when it is a success.
   */
  function FileDetailsSpec(entries: map<string, Entry<Details>>, id: string, now: int, reply: Attempt)
    : CacheRead<Details, Result<Details, SteamError>>
  {
    var key := FileDetailsKey(id);
    var kept := AfterGet(entries, key, now);
    if Lookup(entries, key, now).Some? then CacheRead(kept, Ok(Lookup(entries, key, now).value))
    else if FirstDetails(reply).Err? then CacheRead(kept, Err(FirstDetails(reply).error))
    else CacheRead(kept[key := Entry(FirstDetails(reply).value, now + CacheTtl)], Ok(FirstDetails(reply).value))
  }

  /**
   * A cached answer does not depend on the request; a fresh success is
   * then found in the cache for an hour; a failure is not cached; no
   * other key changes.
   */
  lemma FileDetailsCaching(entries: map<string, Entry<Details>>, id: string, now: int, reply: Attempt, reply2: Attempt,
                           later: int, other: string)
    requires now <= later <= now + CacheTtl && other != FileDetailsKey(id)
    ensures Lookup(entries, FileDetailsKey(id), now).Some? ==>
              FileDetailsSpec(entries, id, now, reply) == FileDetailsSpec(entries, id, now, reply2)
    ensures var s := FileDetailsSpec(entries, id, now, reply);
            Lookup(entries, FileDetailsKey(id), now).None? && s.result.Ok? ==> Lookup(s.entries, FileDetailsKey(id), later) == Some(s.result.value)
    ensures var s := FileDetailsSpec(entries, id, now, reply);
            s.result.Err? ==> FileDetailsKey(id) !in s.entries
    ensures var s := FileDetailsSpec(entries, id, now, reply);
            (other in s.entries <==> other in entries) && (other in entries ==> s.entries[other] == entries[other])
  {
  }

  // ---------------------------------------------------------------
  // Recognising a collection page.

  /** The page-marker test of `scrape_is_collection`, as written. */
  predicate IsCollectionPage(html: string)
  {
    || Contains(html, "mainContentsCollection") || Contains(html, "id=\"mainContentsCollection\"")
    || Contains(html, "collectionHeader") || Contains(html, "class=\"collectionHeader\"")
    || Contains(html, "SubscribeCollectionBtn") || Contains(html, "Subscribe to Collection")
    || Contains(html, "SubscribeAllBtn") || Contains(html, "Subscribe to all")
  }

  lemma {:induction false} ContainsShifted(s: string, k: nat, u: string)
    requires k <= |s| && Contains(s[k..], u)
    ensures Contains(s, u)
    decreases k
  {
    if k > 0 {
      assert s[1..][k - 1..] == s[k..];
      ContainsShifted(s[1..], k - 1, u);
    }
  }

  /** A string holding `a + u + b` holds `u`. */
  lemma {:induction false} ContainsInfix(s: string, a: string, u: string, b: string)
    requires Contains(s, a + u + b)
    ensures Contains(s, u)
    decreases |s|
  {
    if StartsWith(s, a + u + b) {
      assert s[|a|..][..|u|] == (a + u + b)[|a|..|a| + |u|] == u;
      ContainsShifted(s, |a|, u);
    } else {
      ContainsInfix(s[1..], a, u, b);
    }
  }

  /**
   * The quoted forms in the test add nothing: a page is a collection
   * exactly when it holds one of six markers.
   */
  lemma CollectionMarkers(html: string)
    ensures IsCollectionPage(html) <==>
              || Contains(html, "mainContentsCollection") || Contains(html, "collectionHeader")
              || Contains(html, "SubscribeCollectionBtn") || Contains(html, "Subscribe to Collection")
              || Contains(html, "SubscribeAllBtn") || Contains(html, "Subscribe to all")
  {
    assert "id=\"mainContentsCollection\"" == "id=\"" + "mainContentsCollection" + "\"";
    QuotedMarker(html, "id=\"", "mainContentsCollection");
    assert "class=\"collectionHeader\"" == "class=\"" + "collectionHeader" + "\"";
    QuotedMarker(html, "class=\"", "collectionHeader");
  }

  /** A page holding a marker quoted as an attribute value holds the marker itself. */
  lemma QuotedMarker(html: string, attribute: string, marker: string)
    ensures Contains(html, attribute + marker + "\"") ==> Contains(html, marker)
  {
    if Contains(html, attribute + marker + "\"") {
      ContainsInfix(html, attribute, marker, "\"");
    }
  }

  /** `is_collection`'s rule: file type 2 is a collection, type 0 asks the page, any other type is not. */
  function CollectionDecision(fileType: int, page: Option<string>): Result<bool, SteamError>
  {
    if fileType == 2 then Ok(true)
    else if fileType != 0 then Ok(false)
    else if page.None? then Err(PageFailed)
    else Ok(IsCollectionPage(page.value))
  }

  // ---------------------------------------------------------------
  // The IDs a collection page links to.

  /** The link text in front of each ID on a collection page. */
  const IdMarker: string := "sharedfiles/filedetails/?id="

  /** The end of the run of digits of `s` starting at `j`. */
  function DigitRunEnd(s: string, j: nat): (n: nat)
    requires j <= |s|
    ensures j <= n <= |s| && AllDigits(s[j..n]) && (n == |s| || !IsDigit(s[n]))
    decreases |s| - j
  {
    if j < |s| && IsDigit(s[j]) then
      var n := DigitRunEnd(s, j + 1);
      assert s[j..n] == [s[j]] + s[j + 1..n];
      n
    else j
  }

  /** Whether the regular expression `sharedfiles/filedetails/\?id=(\d+)` matches at `i`. */
  predicate MatchesAt(html: string, i: nat)
  {
    i + |IdMarker| < |html| && html[i..i + |IdMarker|] == IdMarker && IsDigit(html[i + |IdMarker|])
  }

  /** The captured IDs of the matches found from `i` on, leftmost first, each search resuming after a match. */
  function Captures(html: string, i: nat): seq<string>
    requires i <= |html|
    decreases |html| - i
  {
    if i == |html| then []
    else if MatchesAt(html, i) then
      var n := DigitRunEnd(html, i + |IdMarker|);
      [html[i + |IdMarker|..n]] + Captures(html, n)
    else Captures(html, i + 1)
  }

  /** `c` follows the link text at `k` in `html` and the digits end with it. */
  predicate LinkedAt(html: string, k: nat, c: string)
  {
    && k + |IdMarker| + |c| <= |html| && html[k..k + |IdMarker|] == IdMarker
    && html[k + |IdMarker|..k + |IdMarker| + |c|] == c
    && (k + |IdMarker| + |c| == |html| || !IsDigit(html[k + |IdMarker| + |c|]))
  }

  /** `c` follows the link text somewhere in `html` and the digits end with it. */
  ghost predicate LinkedId(html: string, c: string)
  {
    exists k: nat :: LinkedAt(html, k, c)
  }

  /** Every capture is a non-empty run of digits right after the link text, not cut short. */
  lemma {:induction false} CapturesAreLinkedIds(html: string, i: nat)
    requires i <= |html|
    ensures forall c :: c in Captures(html, i) ==> |c| > 0 && AllDigits(c) && LinkedId(html, c)
    decreases |html| - i
  {
    if i < |html| {
      if MatchesAt(html, i) {
        var n := DigitRunEnd(html, i + |IdMarker|);
        var c := html[i + |IdMarker|..n];
        var rest := Captures(html, n);
        assert Captures(html, i) == [c] + rest;
        CapturesAreLinkedIds(html, n);
        CaptureAt(html, i);
        forall x | x in [c] + rest
          ensures |x| > 0 && AllDigits(x) && LinkedId(html, x)
        {
          if x != c {
            assert x in rest;
          }
        }
      } else {
        CapturesAreLinkedIds(html, i + 1);
      }
    }
  }

  /** The capture of a match at `i` is a non-empty run of digits linked at `i`. */
  lemma CaptureAt(html: string, i: nat)
    requires MatchesAt(html, i)
    ensures var c := html[i + |IdMarker|..DigitRunEnd(html, i + |IdMarker|)];
            |c| > 0 && AllDigits(c) && LinkedAt(html, i, c) && LinkedId(html, c)
  {
    var j := i + |IdMarker|;
    var n := DigitRunEnd(html, j);
    var c := html[j..n];
    assert n > j;
    assert j + |c| == n;
    assert LinkedAt(html, i, c);
  }

  class SteamApi {
    const fileDetailsCache: Cache<Details>
    const isCollectionCache: Cache<bool>
    const collectionDetailsCache: Cache<seq<Details>>
    const limiter: RateLimiter

    /** The three caches and the limiter are four distinct objects. */
    ghost predicate Valid()
      reads this
    {
      && (fileDetailsCache as object) != (isCollectionCache as object)
      && (fileDetailsCache as object) != (collectionDetailsCache as object)
      && (isCollectionCache as object) != (collectionDetailsCache as object)
      && (limiter as object) != (fileDetailsCache as object)
      && (limiter as object) != (isCollectionCache as object)
      && (limiter as object) != (collectionDetailsCache as object)
    }

    /** `SteamApi::new`: empty one-hour caches and a two-second limiter. */
    constructor (now: int)
      ensures Valid()
      ensures fileDetailsCache.entries == map[] && fileDetailsCache.defaultTtl == CacheTtl
      ensures isCollectionCache.entries == map[] && isCollectionCache.defaultTtl == CacheTtl
      ensures collectionDetailsCache.entries == map[] && collectionDetailsCache.defaultTtl == CacheTtl
      ensures limiter.minDelay == ScrapeDelay && limiter.lastRequestTime == now - ScrapeDelay
    {
      fileDetailsCache := new Cache<Details>(CacheTtl);
      isCollectionCache := new Cache<bool>(CacheTtl);
      collectionDetailsCache := new Cache<seq<Details>>(CacheTtl);
      limiter := new RateLimiter(ScrapeDelay, now);
    }

    /** `get_file_details`. */
    method GetFileDetails(id: string, now: int, reply: Attempt) returns (r: Result<Details, SteamError>)
      requires fileDetailsCache.defaultTtl == CacheTtl
      modifies fileDetailsCache
      ensures CacheRead(fileDetailsCache.entries, r) == FileDetailsSpec(old(fileDetailsCache.entries), id, now, reply)
    {
      var key := FileDetailsKey(id);
      var cached := fileDetailsCache.Get(key, now);
      if cached.Some? {
        return Ok(cached.value);
      }
      var details := FirstDetails(reply);
      if details.Err? {
        return Err(details.error);
      }
      fileDetailsCache.Set(key, details.value, None, now);
      return Ok(details.value);
    }

    /** `scrape_is_collection`: fetch the page through the limiter and look for the markers. */
    method ScrapeIsCollection(id: string, now: int, resumed: int, page: Option<string>)
      returns (slept: nat, r: Result<bool, SteamError>)
      requires resumed >= now + limiter.SleepAt(now)
      modifies limiter
      ensures slept == SleepFor(limiter.minDelay, Since(now, old(limiter.lastRequestTime)))
      ensures limiter.lastRequestTime == resumed
      ensures r == (if page.None? then Err(PageFailed) else Ok(IsCollectionPage(page.value)))
    {
      var html;
      slept, html := limiter.Execute(now, resumed, () => page);
      if html.None? {
        return slept, Err(PageFailed);
      }
      r := Ok(IsCollectionPage(html.value));
    }

    /**
     * `is_collection`: a live cached answer first; otherwise the file
     * details (whose failure is the answer), then the file-type rule,
     * scraping the page only for file type 0; a success is cached.
     */
    method IsCollection(id: string, now: int, resumed: int, reply: Attempt, page: Option<string>)
      returns (r: Result<bool, SteamError>)
      requires Valid() && resumed >= now + limiter.SleepAt(now) && fileDetailsCache.defaultTtl == CacheTtl
      requires isCollectionCache.defaultTtl == CacheTtl
      modifies fileDetailsCache, isCollectionCache, limiter
      ensures var hit := Lookup(old(isCollectionCache.entries), IsCollectionKey(id), now);
              var kept := AfterGet(old(isCollectionCache.entries), IsCollectionKey(id), now);
              var fetched := FileDetailsSpec(old(fileDetailsCache.entries), id, now, reply);
              && (hit.Some? ==> r == Ok(hit.value) && isCollectionCache.entries == kept
                                && fileDetailsCache.entries == old(fileDetailsCache.entries))
              && (hit.None? ==> fileDetailsCache.entries == fetched.entries)
              && (hit.None? && fetched.result.Err? ==> r == Err(fetched.result.error) && isCollectionCache.entries == kept)
              && (hit.None? && fetched.result.Ok? ==> r == CollectionDecision(fetched.result.value.fileType, page))
              && (hit.None? && r.Ok? ==> isCollectionCache.entries == kept[IsCollectionKey(id) := Entry(r.value, now + CacheTtl)])
              && (hit.None? && r.Err? ==> isCollectionCache.entries == kept)
              && (hit.None? && fetched.result.Ok? && fetched.result.value.fileType == 0 ==> limiter.lastRequestTime == resumed)
              && (hit.Some? || fetched.result.Err? || fetched.result.value.fileType != 0 ==>
                    limiter.lastRequestTime == old(limiter.lastRequestTime))
    {
      var key := IsCollectionKey(id);
      var cached := isCollectionCache.Get(key, now);
      if cached.Some? {
        return Ok(cached.value);
      }
      var details := GetFileDetails(id, now, reply);
      if details.Err? {
        return Err(details.error);
      }
      var isCollection := details.value.fileType == 2;
      if !isCollection && details.value.fileType == 0 {
        var _, scraped := ScrapeIsCollection(id, now, resumed, page);
        if scraped.Err? {
          return Err(scraped.error);
        }
        isCollection := scraped.value;
      }
      isCollectionCache.Set(key, isCollection, None, now);
      return Ok(isCollection);
    }

    /**
     * `scrape_collection_mod_ids`: fetch the page through the limiter
     * and collect the captured IDs other than the collection's own,
     * each once. The source gathers them in a `HashSet`, whose order is
     * unspecified; this keeps first occurrences.
     */
    method ScrapeCollectionModIds(collectionId: string, now: int, resumed: int, page: Option<string>)
      returns (r: Result<seq<string>, SteamError>)
      requires resumed >= now + limiter.SleepAt(now)
      modifies limiter
      ensures limiter.lastRequestTime == resumed
      ensures page.None? <==> r.Err?
      ensures r.Err? ==> r.error == PageFailed
      ensures r.Ok? ==> NoDuplicates(r.value)
      ensures r.Ok? ==> forall x :: x in r.value <==> x in Captures(page.value, 0) && x != collectionId
    {
      var _, html := limiter.Execute(now, resumed, () => page);
      if html.None? {
        return Err(PageFailed);
      }
      var caps := Captures(html.value, 0);
      var ids: seq<string> := [];
      for i := 0 to |caps|
        invariant NoDuplicates(ids)
        invariant forall x :: x in ids <==> x in caps[..i] && x != collectionId
      {
        assert caps[..i + 1] == caps[..i] + [caps[i]];
        if caps[i] != collectionId && caps[i] !in ids {
          ids := ids + [caps[i]];
        }
      }
      assert caps[..|caps|] == caps;
      return Ok(ids);
    }

    /** The fallback of `get_collection_details`: `get_file_details` for each ID in turn, keeping the successes. */
    method FetchEach(ids: seq<string>, now: int, replies: string -> Attempt) returns (found: seq<Details>)
      requires fileDetailsCache.defaultTtl == CacheTtl
      modifies fileDetailsCache
      ensures CacheRead(fileDetailsCache.entries, found) == FallbackSpec(old(fileDetailsCache.entries), ids, now, replies)
    {
      found := [];
      ghost var target := FallbackSpec(fileDetailsCache.entries, ids, now, replies);
      var left := ids;
      while left != []
        invariant fileDetailsCache.defaultTtl == CacheTtl
        invariant FallbackSpec(fileDetailsCache.entries, left, now, replies).entries == target.entries
        invariant found + FallbackSpec(fileDetailsCache.entries, left, now, replies).result == target.result
        decreases |left|
      {
        ghost var before := fileDetailsCache.entries;
        var d := GetFileDetails(left[0], now, replies(left[0]));
        FallbackHead(before, left, now, replies, fileDetailsCache.entries, d);
        AppendThree(found, if d.Ok? then [d.value] else [], FallbackSpec(fileDetailsCache.entries, left[1..], now, replies).result);
        if d.Ok? {
          found := found + [d.value];
        }
        left := left[1..];
      }
      assert found + [] == found;
    }

    /**
     * `get_collection_details`: a live cached list first; otherwise the
     * scraped IDs (an empty list is cached and answered at once), the
     * batch query of their details or, when that fails, each ID on its
     * own; the list found is cached. `query` answers a batch request for
     * a list of IDs; the page fetch dates the limiter's last request.
     */
    method GetCollectionDetails(collectionId: string, now: int, resumed: int, page: Option<string>,
                                query: BatchQuery, replies: string -> Attempt)
      returns (r: Result<seq<Details>, SteamError>, ghost ids: seq<string>)
      requires Valid() && resumed >= now + limiter.SleepAt(now)
      requires fileDetailsCache.defaultTtl == CacheTtl && collectionDetailsCache.defaultTtl == CacheTtl
      modifies collectionDetailsCache, fileDetailsCache, limiter
      ensures var hit := Lookup(old(collectionDetailsCache.entries), CollectionDetailsKey(collectionId), now);
              var kept := AfterGet(old(collectionDetailsCache.entries), CollectionDetailsKey(collectionId), now);
              && (hit.Some? ==> r == Ok(hit.value) && collectionDetailsCache.entries == kept)
              && (hit.None? ==> (r.Err? <==> page.None?))
              && (hit.None? && r.Err? ==> r.error == PageFailed && collectionDetailsCache.entries == kept)
              && (hit.None? && r.Ok? ==> && NoDuplicates(ids)
                                         && (forall x :: x in ids <==> x in Captures(page.value, 0) && x != collectionId)
                                         && collectionDetailsCache.entries
                                              == kept[CollectionDetailsKey(collectionId) := Entry(r.value, now + CacheTtl)])
              && (hit.None? && r.Ok? && ids == [] ==> r.value == [])
              && (hit.Some? ==> limiter.lastRequestTime == old(limiter.lastRequestTime))
              && (hit.None? ==> limiter.lastRequestTime == resumed)
              && (hit.None? && r.Ok? && ids != [] && query(ids).Ok? ==> r.value == query(ids).value)
              && (hit.None? && r.Ok? && ids != [] && query(ids).Err? ==>
                    CacheRead(fileDetailsCache.entries, r.value)
                      == FallbackSpec(old(fileDetailsCache.entries), ids, now, replies))
    {
      ids := [];
      var key := CollectionDetailsKey(collectionId);
      var cached := collectionDetailsCache.Get(key, now);
      if cached.Some? {
        return Ok(cached.value), [];
      }
      var scraped := ScrapeCollectionModIds(collectionId, now, resumed, page);
      if scraped.Err? {
        return Err(scraped.error), [];
      }
      var modIds := scraped.value;
      ids := modIds;
      if |modIds| == 0 {
        collectionDetailsCache.Set(key, [], None, now);
        return Ok([]), ids;
      }
      var all;
      var batch := query(modIds);
      if batch.Ok? {
        all := batch.value;
      } else {
        all := FetchEach(modIds, now, replies);
      }
      collectionDetailsCache.Set(key, all, None, now);
      return Ok(all), ids;
    }
  }

  /** The fallback on the entries of the details cache: each ID in turn, keeping the successes in order. */
  function FallbackSpec(entries: map<string, Entry<Details>>, ids: seq<string>, now: int, replies: string -> Attempt)
    : CacheRead<Details, seq<Details>>
    decreases |ids|
  {
    if ids == [] then CacheRead(entries, [])
    else
      var one := FileDetailsSpec(entries, ids[0], now, replies(ids[0]));
      var rest := FallbackSpec(one.entries, ids[1..], now, replies);
      CacheRead(rest.entries, (if one.result.Ok? then [one.result.value] else []) + rest.result)
  }

  /** The fallback over `left` is the request for its first ID followed by the fallback over the rest. */
  lemma FallbackHead(entries: map<string, Entry<Details>>, left: seq<string>, now: int, replies: string -> Attempt,
                     after: map<string, Entry<Details>>, d: Result<Details, SteamError>)
    requires left != [] && CacheRead(after, d) == FileDetailsSpec(entries, left[0], now, replies(left[0]))
    ensures FallbackSpec(entries, left, now, replies)
            == CacheRead(FallbackSpec(after, left[1..], now, replies).entries,
                         (if d.Ok? then [d.value] else []) + FallbackSpec(after, left[1..], now, replies).result)
  {
  }

  /** Appending in two steps or one. */
  lemma AppendThree<T>(a: seq<T>, b: seq<T>, c: seq<T>)
    ensures a + (b + c) == a + b + c
  {
  }

  /** The details of the IDs whose request succeeded, in order. */
  function Fetched(ids: seq<string>, replies: string -> Attempt): seq<Details>
  {
    if ids == [] then []
    else (if FirstDetails(replies(ids[0])).Ok? then [FirstDetails(replies(ids[0])).value] else [])
         + Fetched(ids[1..], replies)
  }

  /**
   * With none of the IDs cached, the fallback lists exactly the
   * details of the requests that succeeded, in the order of the IDs.
   */
  lemma {:induction false} FallbackWithoutCache(entries: map<string, Entry<Details>>, ids: seq<string>, now: int,
                                                replies: string -> Attempt)
    requires NoDuplicates(ids)
    requires forall k :: 0 <= k < |ids| ==> FileDetailsKey(ids[k]) !in entries
    ensures FallbackSpec(entries, ids, now, replies).result == Fetched(ids, replies)
    decreases |ids|
  {
    if ids != [] {
      var one := FileDetailsSpec(entries, ids[0], now, replies(ids[0]));
      forall k | 0 <= k < |ids[1..]|
        ensures FileDetailsKey(ids[1..][k]) !in one.entries
      {
        KeysDiffer(ids[0], ids[1..][k]);
      }
      FallbackWithoutCache(one.entries, ids[1..], now, replies);
    }
  }
}
