// Reading a mod folder's metadata and deciding which installed mods
// need an update (the backend's `mod_query.rs`; the desktop front
// end's copy of `query_mod_id` has the same body and shares this one).

module ModQuery {
  import opened Common
  import opened FileSystem
  import opened Deserializers

  /** `About/PublishedFileId.txt` below a mod folder. */
  function FileIdPath(modPath: Path): Path
  {
    modPath + ["About", "PublishedFileId.txt"]
  }

  /**
   * `query_mod_id`: the trimmed text of `About/PublishedFileId.txt`.
   * Every failure (no `About` directory, no file, a directory where the
   * file should be, blank text) reads as "not a workshop mod"; no case
   * is an error, so the function returns the `Option` the source wraps
   * in an always-`Ok` result.
   */
  function QueryModId(t: Tree, modPath: Path): (r: Option<string>)
    ensures r.Some? <==> IsDir(t, modPath + ["About"]) && IsFile(t, FileIdPath(modPath))
                         && Trim(t[FileIdPath(modPath)].content) != ""
    ensures r.Some? ==> r.value == Trim(t[FileIdPath(modPath)].content)
    ensures r.Some? ==> !IsWhitespace(r.value[0]) && !IsWhitespace(r.value[|r.value| - 1])
  {
    var about := modPath + ["About"];
    var idPath := about + ["PublishedFileId.txt"];
    assert idPath == FileIdPath(modPath);
    if !IsDir(t, about) then None
    else if idPath !in t || t[idPath] == Dir then None
    else
      var id := Trim(t[idPath].content);
      if id == "" then None else Some(id)
  }

  /** A directory holding the mod `modId`, as `query_mod_id` reads it. */
  predicate HoldsMod(t: Tree, dir: Path, modId: string)
  {
    IsDir(t, dir) && QueryModId(t, dir) == Some(modId)
  }

  // ---------------------------------------------------------------
  // Marker files with timestamps.

  /** A file below a mod's `About` folder. */
  function AboutFile(modPath: Path, name: string): Path
  {
    modPath + ["About", name]
  }

  const IgnoredUpdateFile := ".ignoredupdate"
  const LastUpdatedFile := ".lastupdated"

  /**
   * The timestamp a marker file holds: its trimmed text parsed as an
   * `i64`, accepted only when positive.
   */
  function TimestampValue(content: string): (r: Option<int>)
    ensures r.Some? <==> ParseI64(Trim(content)).Some? && ParseI64(Trim(content)).value > 0
    ensures r.Some? ==> 0 < r.value <= I64Max && r == ParseI64(Trim(content))
  {
    var v := ParseI64(Trim(content));
    if v.Some? && v.value > 0 then v else None
  }

  /** A marker with text that is not a positive timestamp; such a file is deleted when read. */
  predicate InvalidMarker(content: string)
  {
    Trim(content) != "" && TimestampValue(content).None?
  }

  /** Decimal digits and a sign are not whitespace, so `trim` keeps a written number intact. */
  lemma TrimIntToString(i: int)
    ensures Trim(IntToString(i)) == IntToString(i)
  {
    var s := IntToString(i);
    if i < 0 {
      assert s[0] == '-';
    }
    assert !IsWhitespace(s[0]) && !IsWhitespace(s[|s| - 1]);
    assert TrimStartBy(s, IsWhitespace) == s;
    assert TrimEndBy(s, IsWhitespace) == s;
  }

  /**
   * Writing a positive timestamp and reading it back gives it again;
   * such a marker is never treated as invalid.
   */
  lemma TimestampRoundTrip(ts: int)
    requires 0 < ts <= I64Max
    ensures TimestampValue(IntToString(ts)) == Some(ts)
    ensures !InvalidMarker(IntToString(ts))
  {
    TrimIntToString(ts);
    ParseI64IntToString(ts);
  }

  /** A zero or negative timestamp is rejected, and so the marker holding it is deleted. */
  lemma NonPositiveTimestampInvalid(ts: int)
    requires I64Min <= ts <= 0
    ensures TimestampValue(IntToString(ts)) == None
    ensures InvalidMarker(IntToString(ts))
  {
    TrimIntToString(ts);
    ParseI64IntToString(ts);
  }

  /** The tree after an invalid marker at `p` is deleted; any other tree is left as it is. */
  function SweepMarker(t: Tree, p: Path): Tree
  {
    if IsFile(t, p) && InvalidMarker(t[p].content) then RemoveFileSpec(t, p) else t
  }

  /** Sweeping changes the tree exactly when the marker is a file with invalid text, and then only removes it. */
  lemma SweepMarkerFacts(t: Tree, p: Path)
    ensures SweepMarker(t, p) != t <==> IsFile(t, p) && InvalidMarker(t[p].content)
    ensures forall q :: q in SweepMarker(t, p) ==> q in t && SweepMarker(t, p)[q] == t[q]
    ensures forall q :: q in t && q !in SweepMarker(t, p) ==> q == p
  {
    if IsFile(t, p) && InvalidMarker(t[p].content) {
      assert p !in SweepMarker(t, p);
    }
  }

  /** The tree after a read that may delete a file, and the value read. */
  datatype Read<T> = Read(tree: Tree, value: T)

  /**
   * Reading a marker fails other than by "not found": a directory
   * stands where the marker should be, or a file stands where the mod
   * folder or its `About` directory should be.
   */
  predicate MarkerUnreadable(t: Tree, modPath: Path, name: string)
  {
    var p := AboutFile(modPath, name);
    IsDir(t, p) || (p !in t && (IsFile(t, modPath) || IsFile(t, modPath + ["About"])))
  }

  /**
   * `get_ignored_update_timestamp`: a positive timestamp in
   * `About/.ignoredupdate`; no file or a blank one reads as none; any
   * other text also reads as none and the file is deleted. Reading fails
   * (the one error) when the marker cannot be read for another reason
   * than its absence.
   */
  function IgnoredTimestampSpec(t: Tree, modPath: Path): Read<Result<Option<int>, string>>
  {
    var p := AboutFile(modPath, IgnoredUpdateFile);
    if MarkerUnreadable(t, modPath, IgnoredUpdateFile) then Read(t, Err("Failed to read .ignoredupdate file"))
    else if p !in t then Read(t, Ok(None))
    else
      var content := t[p].content;
      if InvalidMarker(content) then Read(SweepMarker(t, p), Ok(None))
      else Read(t, Ok(TimestampValue(content)))
  }

  /**
   * What `get_ignored_update_timestamp` promises: it fails exactly when
   * the marker is unreadable, a value comes only from a positive
   * timestamp in the marker, the marker is deleted exactly when its text
   * is not blank and not such a timestamp, and nothing else in the tree
   * changes.
   */
  lemma IgnoredTimestampFacts(t: Tree, modPath: Path)
    ensures var p := AboutFile(modPath, IgnoredUpdateFile);
            var r := IgnoredTimestampSpec(t, modPath);
            && (r.value.Err? <==> MarkerUnreadable(t, modPath, IgnoredUpdateFile))
            && (r.value == Ok(None) <==>
                  (p !in t && !MarkerUnreadable(t, modPath, IgnoredUpdateFile))
                  || (IsFile(t, p) && TimestampValue(t[p].content).None?))
            && (r.value.Ok? && r.value.value.Some? ==>
                  IsFile(t, p) && Some(r.value.value.value) == TimestampValue(t[p].content) && r.value.value.value > 0)
            && r.tree == SweepMarker(t, p)
  {
    var p := AboutFile(modPath, IgnoredUpdateFile);
    if p in t && t[p].File? {
      if InvalidMarker(t[p].content) {
        assert IgnoredTimestampSpec(t, modPath) == Read(SweepMarker(t, p), Ok(None));
      } else {
        assert IgnoredTimestampSpec(t, modPath) == Read(t, Ok(TimestampValue(t[p].content)));
      }
    }
  }

  /**
   * The modification time of a path as the platform reports it, or none,
   * in whole seconds since the epoch rounded up from the platform's
   * sub-second time (see `RoundedUpTimesExact`).
   */
  type MTime = Path -> Option<int>

  /**
   * `metadata.modified()`, or the current time when that is unavailable;
   * `now` is rounded up to whole seconds as `MTime` is.
   */
  function ModifiedOr(mtime: MTime, p: Path, now: int): int
  {
    if mtime(p).Some? then mtime(p).value else now
  }

  /**
   * `get_mod_last_updated_time`, in seconds since the epoch: a positive
   * timestamp in `About/.lastupdated`; otherwise (and after deleting an
   * invalid marker) the modification time of `PublishedFileId.txt`, or,
   * without one, of the mod folder itself; an error only when even the
   * mod folder is missing.
   */
  function LastUpdatedSpec(t: Tree, modPath: Path, mtime: MTime, now: int): Read<Result<int, string>>
  {
    var p := AboutFile(modPath, LastUpdatedFile);
    if IsFile(t, p) && TimestampValue(t[p].content).Some? then Read(t, Ok(TimestampValue(t[p].content).value))
    else
      var t1 := SweepMarker(t, p);
      if FileIdPath(modPath) in t1 then Read(t1, Ok(ModifiedOr(mtime, FileIdPath(modPath), now)))
      else if modPath in t1 then Read(t1, Ok(ModifiedOr(mtime, modPath, now)))
      else Read(t1, Err("Mod folder not found"))
  }

  /** The marker files, the ID file and the mod folder are four distinct paths. */
  lemma MarkerPathsDistinct(modPath: Path)
    ensures FileIdPath(modPath) != AboutFile(modPath, LastUpdatedFile)
    ensures FileIdPath(modPath) != AboutFile(modPath, IgnoredUpdateFile)
    ensures AboutFile(modPath, LastUpdatedFile) != AboutFile(modPath, IgnoredUpdateFile)
    ensures modPath != AboutFile(modPath, LastUpdatedFile) && modPath != AboutFile(modPath, IgnoredUpdateFile)
  {
    var k := |modPath| + 1;
    assert FileIdPath(modPath)[k] == "PublishedFileId.txt";
    assert AboutFile(modPath, LastUpdatedFile)[k] == LastUpdatedFile;
    assert AboutFile(modPath, IgnoredUpdateFile)[k] == IgnoredUpdateFile;
    assert "PublishedFileId.txt"[0] != LastUpdatedFile[0] && "PublishedFileId.txt"[0] != IgnoredUpdateFile[0];
    assert LastUpdatedFile[1] != IgnoredUpdateFile[1];
  }

  /**
   * The marker wins when it holds a positive timestamp; otherwise the
   * file times are used (the ID file's, else the folder's); the only
   * error is a missing mod folder; the only change to the tree is the
   * deletion of an invalid marker.
   */
  lemma LastUpdatedFacts(t: Tree, modPath: Path, mtime: MTime, now: int)
    requires WellFormed(t)
    ensures var p := AboutFile(modPath, LastUpdatedFile);
            var r := LastUpdatedSpec(t, modPath, mtime, now);
            && (IsFile(t, p) && TimestampValue(t[p].content).Some? ==>
                  r == Read(t, Ok(TimestampValue(t[p].content).value)))
            && (r.value.Err? <==> modPath !in t)
            && (r.value.Ok? && !(IsFile(t, p) && TimestampValue(t[p].content).Some?) ==>
                  r.value.value == (if FileIdPath(modPath) in t then ModifiedOr(mtime, FileIdPath(modPath), now)
                                    else ModifiedOr(mtime, modPath, now)))
            && r.tree == SweepMarker(t, p)
  {
    var p := AboutFile(modPath, LastUpdatedFile);
    var idp := FileIdPath(modPath);
    assert IsPrefix(modPath, p) && IsPrefix(modPath, idp);
    AncestorIsDir(t, modPath, p);
    AncestorIsDir(t, modPath, idp);
    MarkerPathsDistinct(modPath);
    if IsFile(t, p) && InvalidMarker(t[p].content) {
      var t1 := RemoveFileSpec(t, p);
      assert (idp in t1 <==> idp in t) && (modPath in t1 <==> modPath in t);
    }
  }

  // ---------------------------------------------------------------
  // Workshop file details and the batch query.

  /** The fields of `WorkshopFileDetails` the application reads. */
  datatype Details = Details(publishedfileid: string, result: int, creatorAppId: int, visibility: int,
                             banned: bool, timeUpdated: int, title: string, fileType: int, fileSize: int,
                             workshopFileUrl: string)

  /** `BaseMod`: an installed mod, with its Workshop details once they are known. */
  datatype BaseMod = BaseMod(modId: string, modPath: Path, folder: Option<string>, details: Option<Details>,
                             updated: Option<bool>)

  /** How a field of `WorkshopFileDetails` is decoded. */
  datatype FieldKind = Text | Int32 | Int64 | Unsigned64 | Flag | TagList

  /** A `Tag`: an object with a string `tag`. */
  predicate IsTag(v: Json)
  {
    v.JObject? && "tag" in v.fields && v.fields["tag"].JString?
  }

  predicate Decodes(kind: FieldKind, v: Json)
  {
    match kind
    case Text => v.JString?
    case Int32 => I32FromStrOrInt(v).Ok?
    case Int64 => I64FromStrOrInt(v).Ok?
    case Unsigned64 => U64FromStrOrInt(v).Ok?
    case Flag => BoolFromInt(v).Ok?
    case TagList => v.JArray? && forall i :: 0 <= i < |v.items| ==> IsTag(v.items[i])
  }

  /** A field without a default: present and decodable. */
  predicate Required(fields: map<string, Json>, name: string, kind: FieldKind)
  {
    name in fields && Decodes(kind, fields[name])
  }

  /** A field with a default: absent, or present and decodable. */
  predicate Optional(fields: map<string, Json>, name: string, kind: FieldKind)
  {
    name in fields ==> Decodes(kind, fields[name])
  }

  /** Every field of `WorkshopFileDetails`, with its decoder and whether it has a default. */
  predicate FieldsOk(f: map<string, Json>)
  {
    && Optional(f, "publishedfileid", Text) && Optional(f, "result", Int32) && Required(f, "creator", Text)
    && Required(f, "creator_app_id", Int32) && Required(f, "consumer_app_id", Int32)
    && Required(f, "filename", Text) && Required(f, "file_size", Unsigned64) && Required(f, "file_url", Text)
    && Required(f, "hcontent_file", Text) && Required(f, "preview_url", Text)
    && Required(f, "hcontent_preview", Text) && Required(f, "title", Text) && Required(f, "description", Text)
    && Required(f, "time_created", Int64) && Required(f, "time_updated", Int64)
    && Required(f, "visibility", Int32) && Optional(f, "flags", Int32) && Optional(f, "workshop_file_url", Text)
    && Optional(f, "workshop_accepted", Flag) && Optional(f, "show_subscribe_all", Flag)
    && Optional(f, "num_comments_developer", Int32) && Optional(f, "num_comments_public", Int32)
    && Optional(f, "banned", Flag) && Optional(f, "ban_reason", Text) && Optional(f, "banner", Text)
    && Optional(f, "can_be_deleted", Flag) && Optional(f, "app_name", Text) && Optional(f, "file_type", Int32)
    && Optional(f, "can_subscribe", Flag) && Optional(f, "subscriptions", Int32)
    && Optional(f, "favorited", Int32) && Optional(f, "followers", Int32)
    && Optional(f, "lifetime_subscriptions", Int32) && Optional(f, "lifetime_favorited", Int32)
    && Optional(f, "lifetime_followers", Int32) && Optional(f, "lifetime_playtime", Text)
    && Optional(f, "lifetime_playtime_sessions", Text) && Optional(f, "views", Int32)
    && Optional(f, "num_children", Int32) && Optional(f, "num_reports", Int32) && Optional(f, "tags", TagList)
  }

  function TextOr(fields: map<string, Json>, name: string): string
  {
    if name in fields && fields[name].JString? then fields[name].s else ""
  }

  function I32Or(fields: map<string, Json>, name: string): int
  {
    if name in fields && I32FromStrOrInt(fields[name]).Ok? then I32FromStrOrInt(fields[name]).value else 0
  }

  /**
   * `serde_json::from_value::<WorkshopFileDetails>`: an object in which
   * every field present decodes and every field without a default is
   * present; unknown fields are ignored.
   */
  function DecodeDetails(v: Json): (r: Option<Details>)
    ensures r.Some? ==> v.JObject? && "time_updated" in v.fields && "visibility" in v.fields
                        && "creator_app_id" in v.fields && "title" in v.fields
    ensures r.Some? ==> r.value.publishedfileid == TextOr(v.fields, "publishedfileid")
                        && v.fields["title"].JString? && r.value.title == v.fields["title"].s
    ensures r.Some? ==> Some(r.value.timeUpdated) == ParseOk(I64FromStrOrInt(v.fields["time_updated"]))
                        && I64Min <= r.value.timeUpdated <= I64Max
    ensures r.Some? ==> I32Min <= r.value.result <= I32Max && I32Min <= r.value.visibility <= I32Max
                        && I32Min <= r.value.creatorAppId <= I32Max && I32Min <= r.value.fileType <= I32Max
  {
    if v.JObject? && FieldsOk(v.fields) then
      var f := v.fields;
      var banned := if "banned" in f then BoolFromInt(f["banned"]).value else false;
      Some(Details(TextOr(f, "publishedfileid"), I32Or(f, "result"), I32FromStrOrInt(f["creator_app_id"]).value,
                   I32FromStrOrInt(f["visibility"]).value, banned, I64FromStrOrInt(f["time_updated"]).value,
                   f["title"].s, I32Or(f, "file_type"), U64FromStrOrInt(f["file_size"]).value,
                   TextOr(f, "workshop_file_url")))
    else None
  }

  function ParseOk(r: Result<int, DecodeError>): Option<int>
  {
    if r.Ok? then Some(r.value) else None
  }

  /** `publishedfiledetails` under `response`, or nothing when either is missing or not of that shape. */
  function DetailsArray(data: Json): seq<Json>
  {
    if data.JObject? && "response" in data.fields && data.fields["response"].JObject?
       && "publishedfiledetails" in data.fields["response"].fields
       && data.fields["response"].fields["publishedfiledetails"].JArray?
    then data.fields["response"].fields["publishedfiledetails"].items
    else []
  }

  /** The values present in `xs`, in order. */
  function Present<T>(xs: seq<Option<T>>): (r: seq<T>)
    ensures |r| <= |xs|
    ensures forall d :: d in r ==> exists i :: 0 <= i < |xs| && xs[i] == Some(d)
    ensures forall i :: 0 <= i < |xs| && xs[i].Some? ==> xs[i].value in r
  {
    if xs == [] then []
    else
      var rest := Present(xs[1..]);
      assert forall i :: 1 <= i < |xs| ==> xs[i] == xs[1..][i - 1];
      if xs[0].Some? then [xs[0].value] + rest else rest
  }

  /** The items that decode, in order; the others are dropped. */
  function DecodeAll(items: seq<Json>): (r: seq<Details>)
    ensures |r| <= |items|
    ensures forall d :: d in r ==> exists i :: 0 <= i < |items| && DecodeDetails(items[i]) == Some(d)
    ensures forall i :: 0 <= i < |items| && DecodeDetails(items[i]).Some? ==> DecodeDetails(items[i]).value in r
  {
    var decoded := seq(|items|, i requires 0 <= i < |items| => DecodeDetails(items[i]));
    assert forall i :: 0 <= i < |items| ==> decoded[i] == DecodeDetails(items[i]);
    Present(decoded)
  }

  /** One try of the details request: it could not be sent, or it came back with a status and a body that is JSON or not. */
  datatype Attempt = SendFailed | Responded(status: int, body: Option<Json>)

  datatype BatchError = Transport | ApiStatus(status: int) | InvalidJson

  const MaxRetries: nat := 3

  predicate IsSuccess(status: int)
  {
    200 <= status < 300
  }

  /** A failed send or an unsuccessful status is tried again; a body that is not JSON is not. */
  predicate Retryable(a: Attempt)
  {
    a.SendFailed? || !IsSuccess(a.status)
  }

  /** What one try gives when it is not retried. */
  function Settle(a: Attempt): Result<seq<Details>, BatchError>
  {
    match a
    case SendFailed => Err(Transport)
    case Responded(status, body) =>
      if !IsSuccess(status) then Err(ApiStatus(status))
      else if body.None? then Err(InvalidJson)
      else Ok(DecodeAll(DetailsArray(body.value)))
  }

  /** The result of a batch query and the pauses, in seconds, taken before each retry. */
  datatype BatchOutcome = BatchOutcome(result: Result<seq<Details>, BatchError>, waits: seq<nat>)

  /**
   * `query_mod_batch(ids, retries)`, with the answers of the network
   * given in `attempts` (the k-th try from now gets `attempts[k]`). It
   * stops at the first try that is not retryable or after try number
   * `MaxRetries`, and sleeps `retries + 1` seconds before each retry.
   */
  function QueryModBatch(attempts: seq<Attempt>, retries: nat): (r: BatchOutcome)
    requires retries <= MaxRetries && |attempts| > MaxRetries - retries
    ensures |r.waits| <= MaxRetries - retries
    ensures forall k :: 0 <= k < |r.waits| ==> r.waits[k] == retries + k + 1 && Retryable(attempts[k])
    ensures |r.waits| < MaxRetries - retries ==> !Retryable(attempts[|r.waits|])
    ensures r.result == Settle(attempts[|r.waits|])
    decreases MaxRetries - retries
  {
    if Retryable(attempts[0]) && retries < MaxRetries then
      var rest := QueryModBatch(attempts[1..], retries + 1);
      BatchOutcome(rest.result, [retries + 1] + rest.waits)
    else BatchOutcome(Settle(attempts[0]), [])
  }

  /** The form key of the `i`-th ID. */
  function IdKey(i: nat): string
  {
    "publishedfileids[" + NatToString(i) + "]"
  }

  lemma IdKeysDiffer(i: nat, j: nat)
    requires i != j
    ensures IdKey(i) != IdKey(j)
  {
    var a := NatToString(i);
    var b := NatToString(j);
    var k := |"publishedfileids["|;
    if IdKey(i) == IdKey(j) {
      assert |a| == |b|;
      assert a == IdKey(i)[k..k + |a|];
      assert b == IdKey(j)[k..k + |b|];
      NatToStringInjective(i, j);
    }
  }

  lemma IdKeyNotFixed(i: nat)
    ensures IdKey(i) != "itemcount" && IdKey(i) != "format"
  {
    assert IdKey(i)[0] == 'p';
  }

  /**
   * The duplicate-free list of IDs sent. The source collects a
   * `HashSet`, whose order is unspecified; this keeps first
   * occurrences, which is one of the orders it may produce.
   */
  method UniqueIds(ids: seq<string>) returns (u: seq<string>)
    ensures NoDuplicates(u)
    ensures forall x :: x in u <==> x in ids
  {
    u := [];
    for i := 0 to |ids|
      invariant NoDuplicates(u)
      invariant forall x :: x in u <==> x in ids[..i]
    {
      assert ids[..i + 1] == ids[..i] + [ids[i]];
      if ids[i] !in u {
        u := u + [ids[i]];
      }
    }
    assert ids[..|ids|] == ids;
  }

  /**
   * The form of the request: `itemcount` is the number of unique IDs,
   * `format` is `json`, and `publishedfileids[i]` is the i-th unique ID;
   * there are no other keys.
   */
  method FormParams(ids: seq<string>) returns (params: map<string, string>, unique: seq<string>)
    ensures NoDuplicates(unique) && (forall x :: x in unique <==> x in ids)
    ensures "itemcount" in params && params["itemcount"] == NatToString(|unique|)
    ensures "format" in params && params["format"] == "json"
    ensures forall i :: 0 <= i < |unique| ==> IdKey(i) in params && params[IdKey(i)] == unique[i]
    ensures forall k :: k in params ==> k == "itemcount" || k == "format" || exists i :: 0 <= i < |unique| && k == IdKey(i)
  {
    unique := UniqueIds(ids);
    params := map["itemcount" := NatToString(|unique|), "format" := "json"];
    for i := 0 to |unique|
      invariant "itemcount" in params && params["itemcount"] == NatToString(|unique|)
      invariant "format" in params && params["format"] == "json"
      invariant forall j :: 0 <= j < i ==> IdKey(j) in params && params[IdKey(j)] == unique[j]
      invariant forall k :: k in params ==> k == "itemcount" || k == "format" || exists j :: 0 <= j < i && k == IdKey(j)
    {
      IdKeyNotFixed(i);
      forall j | 0 <= j < i
        ensures IdKey(j) != IdKey(i)
      {
        IdKeysDiffer(j, i);
      }
      params := params[IdKey(i) := unique[i]];
    }
  }

  // ---------------------------------------------------------------
  // Filling in details, 50 mods per request.

  const BatchCount: nat := 50

  /** The number of batches for `n` items: `n` divided by 50, rounded up. */
  function NumBatches(n: nat): nat
  {
    (n + BatchCount - 1) / BatchCount
  }

  function BatchEnd(b: nat, n: nat): nat
  {
    if b * BatchCount + BatchCount < n then b * BatchCount + BatchCount else n
  }

  /** Item `i` of `n` lies in batch `i / 50`, whose range is `[50 * (i / 50), BatchEnd)`; every batch starts inside. */
  lemma BatchOfIndex(i: nat, n: nat)
    requires i < n
    ensures i / BatchCount < NumBatches(n)
    ensures (i / BatchCount) * BatchCount <= i < BatchEnd(i / BatchCount, n)
  {
  }

  lemma BatchStartsInside(b: nat, n: nat)
    requires b < NumBatches(n)
    ensures b * BatchCount < n
  {
  }

  lemma IndexInBatch(b: nat, i: nat)
    requires b * BatchCount <= i < b * BatchCount + BatchCount
    ensures i / BatchCount == b
  {
    DivModUnique(i, BatchCount, b, i - b * BatchCount);
  }

  /** The IDs of batch `b`. */
  function BatchIds(mods: seq<BaseMod>, b: nat): (ids: seq<string>)
    requires b * BatchCount <= |mods|
    ensures |ids| == BatchEnd(b, |mods|) - b * BatchCount
    ensures forall k :: 0 <= k < |ids| ==> ids[k] == mods[b * BatchCount + k].modId
  {
    seq(BatchEnd(b, |mods|) - b * BatchCount, k requires 0 <= k < BatchEnd(b, |mods|) - b * BatchCount =>
      mods[b * BatchCount + k].modId)
  }

  /** What `query_mod_batch(ids, 0)` returns for each list of IDs. */
  type BatchQuery = seq<string> -> Result<seq<Details>, BatchError>

  /** The `HashMap` collected from a batch's details: keyed by `publishedfileid`, a later detail replacing an earlier one. */
  function DetailsMap(ds: seq<Details>): map<string, Details>
  {
    if ds == [] then map[] else DetailsMap(ds[..|ds| - 1])[ds[|ds| - 1].publishedfileid := ds[|ds| - 1]]
  }

  /** The keys are the IDs of the details, and each maps to the last detail with that ID. */
  lemma {:induction false} DetailsMapLast(ds: seq<Details>, id: string)
    ensures id in DetailsMap(ds) <==> exists i :: 0 <= i < |ds| && ds[i].publishedfileid == id
    ensures id in DetailsMap(ds) ==>
              && DetailsMap(ds)[id].publishedfileid == id
              && exists i :: 0 <= i < |ds| && ds[i] == DetailsMap(ds)[id]
                             && forall j :: i < j < |ds| ==> ds[j].publishedfileid != id
  {
    if ds != [] {
      var init := ds[..|ds| - 1];
      DetailsMapLast(init, id);
      assert forall i :: 0 <= i < |init| ==> init[i] == ds[i];
      if ds[|ds| - 1].publishedfileid != id && id in DetailsMap(ds) {
        var i :| 0 <= i < |init| && init[i] == DetailsMap(init)[id]
                 && forall j :: i < j < |init| ==> init[j].publishedfileid != id;
        assert ds[i] == DetailsMap(ds)[id];
      }
    }
  }

  /** `details.into_iter().map(..).collect()` into a `HashMap`. */
  method BuildDetailsMap(ds: seq<Details>) returns (m: map<string, Details>)
    ensures m == DetailsMap(ds)
  {
    m := map[];
    for i := 0 to |ds|
      invariant m == DetailsMap(ds[..i])
    {
      assert ds[..i + 1][..i] == ds[..i];
      m := m[ds[i].publishedfileid := ds[i]];
    }
    assert ds[..|ds|] == ds;
  }

  /** A mod after its batch's answer: the detail under its ID, if the query succeeded and returned one. */
  function Filled(m: BaseMod, res: Result<seq<Details>, BatchError>): BaseMod
  {
    if res.Ok? && m.modId in DetailsMap(res.value) then m.(details := Some(DetailsMap(res.value)[m.modId])) else m
  }

  /**
   * Filling only sets `details`, and only to a detail of the mod's own
   * batch answer whose `publishedfileid` is the mod's ID, the last such
   * one; a failed batch leaves its mods as they were.
   */
  lemma FilledFacts(m: BaseMod, res: Result<seq<Details>, BatchError>)
    ensures var f := Filled(m, res);
            && f.modId == m.modId && f.modPath == m.modPath && f.folder == m.folder && f.updated == m.updated
            && (res.Ok? && (exists i :: 0 <= i < |res.value| && res.value[i].publishedfileid == m.modId) ==>
                  && f.details.Some? && f.details.value.publishedfileid == m.modId
                  && exists i :: 0 <= i < |res.value| && res.value[i] == f.details.value
                                 && forall j :: i < j < |res.value| ==> res.value[j].publishedfileid != m.modId)
            && (!(res.Ok? && exists i :: 0 <= i < |res.value| && res.value[i].publishedfileid == m.modId) ==> f == m)
  {
    if res.Ok? {
      DetailsMapLast(res.value, m.modId);
    }
  }

  /**
   * `update_mod_details`: split the mods into batches of 50, query each
   * batch and fill in details; the length and order of the list are
   * kept.
   */
  method UpdateModDetails(mods: seq<BaseMod>, query: BatchQuery) returns (out: seq<BaseMod>)
    ensures |out| == |mods|
    ensures forall i :: 0 <= i < |mods| ==> out[i] == Filled(mods[i], query(BatchIds(mods, i / BatchCount)))
  {
    out := mods;
    if |mods| == 0 {
      return;
    }
    var numBatches := (|mods| + BatchCount - 1) / BatchCount;
    for b := 0 to numBatches
      invariant |out| == |mods|
      invariant forall i :: 0 <= i < |mods| && i < b * BatchCount ==>
                  i / BatchCount < NumBatches(|mods|) && out[i] == Filled(mods[i], query(BatchIds(mods, i / BatchCount)))
      invariant forall i :: b * BatchCount <= i < |mods| ==> out[i] == mods[i]
    {
      BatchStartsInside(b, |mods|);
      var start := b * BatchCount;
      var end := BatchEnd(b, |mods|);
      var res := query(BatchIds(mods, b));
      var m: map<string, Details> := map[];
      if res.Ok? {
        m := BuildDetailsMap(res.value);
      }
      for idx := start to end
        invariant |out| == |mods|
        invariant forall i :: 0 <= i < |mods| && i < start ==>
                    i / BatchCount < NumBatches(|mods|) && out[i] == Filled(mods[i], query(BatchIds(mods, i / BatchCount)))
        invariant forall i :: start <= i < idx ==> out[i] == Filled(mods[i], res)
        invariant forall i :: idx <= i < |mods| ==> out[i] == mods[i]
      {
        if res.Ok? && out[idx].modId in m {
          out := out[idx := out[idx].(details := Some(m[out[idx].modId]))];
        }
      }
      forall i | start <= i < end
        ensures i / BatchCount == b
      {
        IndexInBatch(b, i);
      }
    }
  }

  // ---------------------------------------------------------------
  // Listing the installed mods.

  /** A sub-directory of `modsPath` that `query_mod_id` reads a mod ID from. */
  predicate IsModFolder(t: Tree, modsPath: Path, n: string)
  {
    n in ChildNames(t, modsPath) && IsDir(t, modsPath + [n]) && QueryModId(t, modsPath + [n]).Some?
  }

  /** The entry listed for such a folder: its ID, path and name, no details yet. */
  function ModAt(t: Tree, modsPath: Path, n: string): BaseMod
    requires QueryModId(t, modsPath + [n]).Some?
  {
    BaseMod(QueryModId(t, modsPath + [n]).value, modsPath + [n], Some(n), None, None)
  }

  /** Each mod folder is listed exactly once, and nothing else is listed. */
  ghost predicate ListsModFolders(t: Tree, modsPath: Path, mods: seq<BaseMod>)
  {
    && (forall i, j :: 0 <= i < j < |mods| ==> mods[i].modPath != mods[j].modPath)
    && (forall m :: m in mods ==> exists n :: IsModFolder(t, modsPath, n) && m == ModAt(t, modsPath, n))
    && (forall n :: IsModFolder(t, modsPath, n) ==> ModAt(t, modsPath, n) in mods)
  }

  const MissingModsPath := "Mods path does not exist"
  const ModsPathNotDir := "Mods path is not a directory"

  /**
   * `list_installed_mods_fast` (and the listing that starts
   * `query_mods_for_updates`): every sub-directory with a readable mod
   * ID, in directory order, which is unspecified.
   */
  method ListInstalledMods(t: Tree, modsPath: Path) returns (r: Result<seq<BaseMod>, string>)
    ensures r == Err(MissingModsPath) <==> modsPath !in t
    ensures r == Err(ModsPathNotDir) <==> modsPath in t && !IsDir(t, modsPath)
    ensures r.Err? <==> !IsDir(t, modsPath)
    ensures r.Ok? ==> ListsModFolders(t, modsPath, r.value)
  {
    if modsPath !in t {
      return Err(MissingModsPath);
    }
    if !IsDir(t, modsPath) {
      return Err(ModsPathNotDir);
    }
    var mods: seq<BaseMod> := [];
    var names := ChildNames(t, modsPath);
    ghost var done: set<string> := {};
    while names != {}
      invariant names + done == ChildNames(t, modsPath) && names !! done
      invariant ListedSoFar(t, modsPath, mods, done)
      decreases names
    {
      var n :| n in names;
      if IsDir(t, modsPath + [n]) && QueryModId(t, modsPath + [n]).Some? {
        ListAdd(t, modsPath, mods, done, n);
        mods := mods + [ModAt(t, modsPath, n)];
      } else {
        ListSkip(t, modsPath, mods, done, n);
      }
      MoveName(names, done, n);
      names := names - {n};
      done := done + {n};
    }
    return Ok(mods);
  }

  /** The listing after the names in `done` have been looked at. */
  ghost predicate ListedSoFar(t: Tree, modsPath: Path, mods: seq<BaseMod>, done: set<string>)
  {
    && (forall i, j :: 0 <= i < j < |mods| ==> mods[i].modPath != mods[j].modPath)
    && (forall m :: m in mods ==> exists n :: n in done && IsModFolder(t, modsPath, n) && m == ModAt(t, modsPath, n))
    && (forall n :: n in done && IsModFolder(t, modsPath, n) ==> ModAt(t, modsPath, n) in mods)
  }

  /** A mod folder looked at for the first time joins the listing. */
  lemma ListAdd(t: Tree, modsPath: Path, mods: seq<BaseMod>, done: set<string>, n: string)
    requires ListedSoFar(t, modsPath, mods, done) && n !in done && IsModFolder(t, modsPath, n)
    ensures ListedSoFar(t, modsPath, mods + [ModAt(t, modsPath, n)], done + {n})
  {
    var m := ModAt(t, modsPath, n);
    var mods2 := mods + [m];
    forall k | 0 <= k < |mods|
      ensures mods[k].modPath != m.modPath
    {
      assert mods[k] in mods;
      var n' :| n' in done && IsModFolder(t, modsPath, n') && mods[k] == ModAt(t, modsPath, n');
      assert (modsPath + [n'])[|modsPath|] == n';
      assert (modsPath + [n])[|modsPath|] == n;
    }
    forall i, j | 0 <= i < j < |mods2|
      ensures mods2[i].modPath != mods2[j].modPath
    {
      assert mods2[i] == mods[i];
      if j < |mods| {
        assert mods2[j] == mods[j];
      }
    }
    forall x | x in mods2
      ensures exists n' :: n' in done + {n} && IsModFolder(t, modsPath, n') && x == ModAt(t, modsPath, n')
    {
      if x in mods {
        var n' :| n' in done && IsModFolder(t, modsPath, n') && x == ModAt(t, modsPath, n');
        assert n' in done + {n};
      } else {
        assert x == m && n in done + {n};
      }
    }
    forall n' | n' in done + {n} && IsModFolder(t, modsPath, n')
      ensures ModAt(t, modsPath, n') in mods2
    {
      if n' in done {
        assert ModAt(t, modsPath, n') in mods;
      }
    }
  }

  /** A name that is not a mod folder leaves the listing as it is. */
  lemma ListSkip(t: Tree, modsPath: Path, mods: seq<BaseMod>, done: set<string>, n: string)
    requires ListedSoFar(t, modsPath, mods, done) && !IsModFolder(t, modsPath, n)
    ensures ListedSoFar(t, modsPath, mods, done + {n})
  {
    forall x | x in mods
      ensures exists n' :: n' in done + {n} && IsModFolder(t, modsPath, n') && x == ModAt(t, modsPath, n')
    {
      var n' :| n' in done && IsModFolder(t, modsPath, n') && x == ModAt(t, modsPath, n');
      assert n' in done + {n};
    }
  }

  // ---------------------------------------------------------------
  // Which mods need an update.

  const RimWorldAppIdNumber: int := 294100

  /**
   * The backend's filter: the Workshop found the file (`result` 1, and
   * in particular not 9), it is public, not banned and a RimWorld item.
   */
  predicate Eligible(d: Details)
  {
    d.result != 9 && d.result == 1 && d.visibility == 0 && !d.banned && d.creatorAppId == RimWorldAppIdNumber
  }

  /** `time_updated as u64`: a negative value wraps around. */
  function AsU64Wrapping(i: int): int
  {
    if i >= 0 then i else i + U64Max + 1
  }

  /**
   * `remote.duration_since(local).unwrap_or_default().as_secs()`: the
   * seconds by which the remote time is later, and 0 when it is not.
   */
  function SecondsNewer(remote: int, local: int): (d: nat)
    ensures d > 1 <==> remote - local > 1
  {
    if remote > local then remote - local else 0
  }

  /** Nanoseconds in a second: the platform's file times and clock carry this precision. */
  const NanosPerSecond: int := 1_000_000_000

  /** A platform time in nanoseconds since the epoch, rounded up to whole seconds as `MTime` reports it. */
  function SecondsRoundedUp(nanos: int): (s: int)
    ensures (s - 1) * NanosPerSecond < nanos <= s * NanosPerSecond
  {
    -((-nanos) / NanosPerSecond)
  }

  /**
   * `remote_date.duration_since(last).unwrap_or_default().as_secs()` with
   * the remote time in whole seconds and the local one in nanoseconds:
   * the difference truncated to whole seconds, and 0 when the local
   * time is later.
   */
  function TruncatedSecondsNewer(remote: int, localNanos: int): nat
  {
    if remote * NanosPerSecond >= localNanos then (remote * NanosPerSecond - localNanos) / NanosPerSecond else 0
  }

  /**
   * Reading a sub-second file time rounded up makes the whole-second
   * comparison exact: the truncated difference the source takes equals
   * the difference to the rounded-up time, so "more than one second
   * newer" agrees for every file time.
   */
  lemma RoundedUpTimesExact(remote: int, localNanos: int)
    ensures TruncatedSecondsNewer(remote, localNanos) == SecondsNewer(remote, SecondsRoundedUp(localNanos))
    ensures TruncatedSecondsNewer(remote, localNanos) > 1 <==> remote - SecondsRoundedUp(localNanos) > 1
  {
    var c := SecondsRoundedUp(localNanos);
    if remote * NanosPerSecond >= localNanos {
      var diff := remote * NanosPerSecond - localNanos;
      assert (remote - c) * NanosPerSecond <= diff < (remote - c + 1) * NanosPerSecond;
      assert remote >= c;
      assert diff / NanosPerSecond == remote - c;
    } else {
      assert remote < c;
    }
  }

  /**
   * One mod's check in `query_mods_for_updates`, run as a blocking task:
   * a positive `.ignoredupdate` timestamp is the reference; otherwise
   * (none, or an error reading it) the last-updated time is. The
   * remote time is the Workshop's `time_updated`. `None` when the task
   * gives no answer: the last-updated time cannot be read, or a
   * negative `time_updated` (beyond the clock's range as a `u64`) makes
   * the task panic before the local time is read.
   */
  function CheckSpec(t: Tree, modPath: Path, timeUpdated: int, mtime: MTime, now: int): Read<Option<bool>>
  {
    var ign := IgnoredTimestampSpec(t, modPath);
    if ign.value.Ok? && ign.value.value.Some? then Read(ign.tree, Some(timeUpdated - ign.value.value.value > 1))
    else CheckLastUpdated(ign.tree, modPath, timeUpdated, mtime, now)
  }

  /** The check against the last-updated time, for a mod without an ignored timestamp. */
  function CheckLastUpdated(t: Tree, modPath: Path, timeUpdated: int, mtime: MTime, now: int): Read<Option<bool>>
  {
    if AsU64Wrapping(timeUpdated) > I64Max then Read(t, None)
    else
      var lu := LastUpdatedSpec(t, modPath, mtime, now);
      Read(lu.tree, if lu.value.Err? then None else Some(SecondsNewer(timeUpdated, lu.value.value) > 1))
  }

  /**
   * The update rule: with a positive ignored timestamp `ts` the mod
   * needs an update iff `time_updated - ts > 1`; otherwise iff
   * `time_updated` is more than one second later than the last-updated
   * time, a negative difference counting as none; there is no answer
   * exactly when `time_updated` is negative or the folder is missing.
   */
  lemma UpdateRule(t: Tree, modPath: Path, timeUpdated: int, mtime: MTime, now: int)
    requires WellFormed(t) && I64Min <= timeUpdated <= I64Max
    ensures var ign := IgnoredTimestampSpec(t, modPath);
            var r := CheckSpec(t, modPath, timeUpdated, mtime, now);
            && (ign.value.Ok? && ign.value.value.Some? ==> r.value == Some(timeUpdated - ign.value.value.value > 1))
            && (!(ign.value.Ok? && ign.value.value.Some?) ==>
                  && (r.value.None? <==> timeUpdated < 0 || modPath !in t)
                  && (r.value.Some? ==>
                        (r.value.value <==> timeUpdated - LastUpdatedSpec(ign.tree, modPath, mtime, now).value.value > 1)))
  {
    var ign := IgnoredTimestampSpec(t, modPath);
    var p := AboutFile(modPath, IgnoredUpdateFile);
    IgnoredTimestampFacts(t, modPath);
    if !(ign.value.Ok? && ign.value.value.Some?) {
      SweepedStillWellFormed(t, p);
      SweepMarkerFacts(t, p);
      MarkerPathsDistinct(modPath);
      assert modPath in ign.tree <==> modPath in t;
      CheckLastUpdatedRule(ign.tree, modPath, timeUpdated, mtime, now);
    }
  }

  lemma CheckLastUpdatedRule(t: Tree, modPath: Path, timeUpdated: int, mtime: MTime, now: int)
    requires WellFormed(t) && I64Min <= timeUpdated <= I64Max
    ensures var r := CheckLastUpdated(t, modPath, timeUpdated, mtime, now);
            && (r.value.None? <==> timeUpdated < 0 || modPath !in t)
            && (r.value.Some? ==> (r.value.value <==> timeUpdated - LastUpdatedSpec(t, modPath, mtime, now).value.value > 1))
            && r.tree == (if timeUpdated < 0 then t else SweepMarker(t, AboutFile(modPath, LastUpdatedFile)))
  {
    if timeUpdated >= 0 {
      LastUpdatedFacts(t, modPath, mtime, now);
    }
  }

  lemma SweepedStillWellFormed(t: Tree, p: Path)
    requires WellFormed(t)
    ensures WellFormed(SweepMarker(t, p))
  {
    if IsFile(t, p) && InvalidMarker(t[p].content) {
      RemoveFileWellFormed(t, p);
    }
  }

  /** A check changes nothing but the deletion of the mod's invalid marker files. */
  lemma CheckTreeChanges(t: Tree, modPath: Path, timeUpdated: int, mtime: MTime, now: int)
    ensures var r := CheckSpec(t, modPath, timeUpdated, mtime, now);
            && (forall q :: q in r.tree ==> q in t && r.tree[q] == t[q])
            && (forall q :: q in t && q !in r.tree ==>
                  q == AboutFile(modPath, IgnoredUpdateFile) || q == AboutFile(modPath, LastUpdatedFile))
  {
    var ign := IgnoredTimestampSpec(t, modPath);
    var pI := AboutFile(modPath, IgnoredUpdateFile);
    var pL := AboutFile(modPath, LastUpdatedFile);
    IgnoredTimestampFacts(t, modPath);
    SweepMarkerFacts(t, pI);
    SweepMarkerFacts(ign.tree, pL);
    var r := CheckSpec(t, modPath, timeUpdated, mtime, now);
    if !(ign.value.Ok? && ign.value.value.Some?) {
      LastUpdatedTreeIsSwept(ign.tree, modPath, mtime, now);
      assert r.tree == ign.tree || r.tree == SweepMarker(ign.tree, pL);
    }
  }

  lemma LastUpdatedTreeIsSwept(t: Tree, modPath: Path, mtime: MTime, now: int)
    ensures LastUpdatedSpec(t, modPath, mtime, now).tree == SweepMarker(t, AboutFile(modPath, LastUpdatedFile))
  {
  }

  // ---------------------------------------------------------------
  // The reads on a live file system.

  /** `get_ignored_update_timestamp`, deleting an invalid marker. */
  method GetIgnoredUpdateTimestamp(fs: Fs, modPath: Path) returns (r: Result<Option<int>, string>)
    requires fs.Valid()
    modifies fs
    ensures fs.Valid()
    ensures Read(fs.tree, r) == IgnoredTimestampSpec(old(fs.tree), modPath)
  {
    var p := AboutFile(modPath, IgnoredUpdateFile);
    if MarkerUnreadable(fs.tree, modPath, IgnoredUpdateFile) {
      return Err("Failed to read .ignoredupdate file");
    }
    if p !in fs.tree {
      return Ok(None);
    }
    var ts := ReadMarker(fs, p);
    return Ok(ts);
  }

  /** `get_mod_last_updated_time`, deleting an invalid marker. */
  method GetModLastUpdatedTime(fs: Fs, modPath: Path, mtime: MTime, now: int) returns (r: Result<int, string>)
    requires fs.Valid()
    modifies fs
    ensures fs.Valid()
    ensures Read(fs.tree, r) == LastUpdatedSpec(old(fs.tree), modPath, mtime, now)
  {
    var p := AboutFile(modPath, LastUpdatedFile);
    ghost var t0 := fs.tree;
    var marker := ReadMarker(fs, p);
    if marker.Some? {
      return Ok(marker.value);
    }
    assert fs.tree == SweepMarker(t0, p);
    var idPath := FileIdPath(modPath);
    if idPath in fs.tree {
      return Ok(ModifiedOr(mtime, idPath, now));
    }
    if modPath !in fs.tree {
      return Err("Mod folder not found");
    }
    return Ok(ModifiedOr(mtime, modPath, now));
  }

  /** Reads a timestamp marker that is a file, deleting it when its text is invalid. */
  method ReadMarker(fs: Fs, p: Path) returns (ts: Option<int>)
    requires fs.Valid()
    modifies fs
    ensures fs.Valid()
    ensures ts == (if IsFile(old(fs.tree), p) then TimestampValue(old(fs.tree)[p].content) else None)
    ensures fs.tree == if ts.Some? then old(fs.tree) else SweepMarker(old(fs.tree), p)
  {
    if !IsFile(fs.tree, p) {
      return None;
    }
    var trimmed := Trim(fs.tree[p].content);
    if trimmed == "" {
      return None;
    }
    var parsed := ParseI64(trimmed);
    if parsed.Some? && parsed.value > 0 {
      return parsed;
    }
    var _ := fs.RemoveFile(p);
    return None;
  }

  /** One mod's update check (the body of the blocking task). */
  method CheckMod(fs: Fs, modPath: Path, timeUpdated: int, mtime: MTime, now: int) returns (r: Option<bool>)
    requires fs.Valid()
    modifies fs
    ensures fs.Valid()
    ensures Read(fs.tree, r) == CheckSpec(old(fs.tree), modPath, timeUpdated, mtime, now)
  {
    var ignored := GetIgnoredUpdateTimestamp(fs, modPath);
    if ignored.Ok? && ignored.value.Some? {
      return Some(timeUpdated - ignored.value.value > 1);
    }
    if AsU64Wrapping(timeUpdated) > I64Max {
      return None;
    }
    var local := GetModLastUpdatedTime(fs, modPath, mtime, now);
    if local.Err? {
      return None;
    }
    return Some(SecondsNewer(timeUpdated, local.value) > 1);
  }

  // ---------------------------------------------------------------
  // Checks of different mods do not interfere.

  /** `t1` and `t2` have the same entries below `root`. */
  ghost predicate AgreeBelow(t1: Tree, t2: Tree, root: Path)
  {
    forall q :: IsPrefix(root, q) ==> (q in t1 <==> q in t2) && (q in t1 ==> t1[q] == t2[q])
  }

  lemma SweepAgrees(t1: Tree, t2: Tree, root: Path, p: Path)
    requires AgreeBelow(t1, t2, root) && IsPrefix(root, p)
    ensures AgreeBelow(SweepMarker(t1, p), SweepMarker(t2, p), root)
  {
    assert (p in t1 <==> p in t2) && (p in t1 ==> t1[p] == t2[p]);
  }

  lemma OwnPaths(modPath: Path)
    ensures IsPrefix(modPath, modPath) && IsPrefix(modPath, FileIdPath(modPath)) && IsPrefix(modPath, modPath + ["About"])
    ensures IsPrefix(modPath, AboutFile(modPath, IgnoredUpdateFile)) && IsPrefix(modPath, AboutFile(modPath, LastUpdatedFile))
  {
  }

  lemma IgnoredLocal(t1: Tree, t2: Tree, modPath: Path)
    requires AgreeBelow(t1, t2, modPath)
    ensures IgnoredTimestampSpec(t1, modPath).value == IgnoredTimestampSpec(t2, modPath).value
    ensures AgreeBelow(IgnoredTimestampSpec(t1, modPath).tree, IgnoredTimestampSpec(t2, modPath).tree, modPath)
  {
    OwnPaths(modPath);
    var pI := AboutFile(modPath, IgnoredUpdateFile);
    assert (pI in t1 <==> pI in t2) && (pI in t1 ==> t1[pI] == t2[pI]);
    assert MarkerUnreadable(t1, modPath, IgnoredUpdateFile) == MarkerUnreadable(t2, modPath, IgnoredUpdateFile);
    IgnoredTimestampFacts(t1, modPath);
    IgnoredTimestampFacts(t2, modPath);
    SweepAgrees(t1, t2, modPath, pI);
  }

  lemma CheckLastUpdatedLocal(u1: Tree, u2: Tree, modPath: Path, timeUpdated: int, mtime: MTime, now: int)
    requires AgreeBelow(u1, u2, modPath)
    ensures CheckLastUpdated(u1, modPath, timeUpdated, mtime, now).value
            == CheckLastUpdated(u2, modPath, timeUpdated, mtime, now).value
    ensures AgreeBelow(CheckLastUpdated(u1, modPath, timeUpdated, mtime, now).tree,
                       CheckLastUpdated(u2, modPath, timeUpdated, mtime, now).tree, modPath)
  {
    OwnPaths(modPath);
    var pL := AboutFile(modPath, LastUpdatedFile);
    assert (pL in u1 <==> pL in u2) && (pL in u1 ==> u1[pL] == u2[pL]);
    assert (FileIdPath(modPath) in u1 <==> FileIdPath(modPath) in u2) && (modPath in u1 <==> modPath in u2);
    LastUpdatedTreeIsSwept(u1, modPath, mtime, now);
    LastUpdatedTreeIsSwept(u2, modPath, mtime, now);
    SweepAgrees(u1, u2, modPath, pL);
  }

  /** A mod's check reads and deletes only entries below its own folder. */
  lemma CheckLocal(t1: Tree, t2: Tree, modPath: Path, timeUpdated: int, mtime: MTime, now: int)
    requires AgreeBelow(t1, t2, modPath)
    ensures CheckSpec(t1, modPath, timeUpdated, mtime, now).value == CheckSpec(t2, modPath, timeUpdated, mtime, now).value
    ensures AgreeBelow(CheckSpec(t1, modPath, timeUpdated, mtime, now).tree,
                       CheckSpec(t2, modPath, timeUpdated, mtime, now).tree, modPath)
  {
    IgnoredLocal(t1, t2, modPath);
    CheckLastUpdatedLocal(IgnoredTimestampSpec(t1, modPath).tree, IgnoredTimestampSpec(t2, modPath).tree,
                          modPath, timeUpdated, mtime, now);
  }

  // ---------------------------------------------------------------
  // `query_mods_for_updates`.

  /**
   * A mod the backend reports: its details pass the filter, its ID is
   * not ignored, and its check, on the tree as it was when the query
   * started, answers "needs an update".
   */
  predicate NeedsUpdate(t: Tree, m: BaseMod, ignoredMods: seq<string>, mtime: MTime, now: int)
  {
    && m.details.Some? && Eligible(m.details.value) && m.modId !in ignoredMods
    && CheckSpec(t, m.modPath, m.details.value.timeUpdated, mtime, now).value == Some(true)
  }

  /** The mods' folders are distinct sub-directories of `modsPath`. */
  ghost predicate SiblingFolders(modsPath: Path, mods: seq<BaseMod>)
  {
    && (forall i :: 0 <= i < |mods| ==> |mods[i].modPath| == |modsPath| + 1 && IsPrefix(modsPath, mods[i].modPath))
    && (forall i, j :: 0 <= i < j < |mods| ==> mods[i].modPath != mods[j].modPath)
  }

  /** A marker file that a mod's check may delete. */
  predicate IsMarkerOf(q: Path, modPath: Path)
  {
    q == AboutFile(modPath, IgnoredUpdateFile) || q == AboutFile(modPath, LastUpdatedFile)
  }

  lemma ListedAreSiblings(t: Tree, modsPath: Path, listed: seq<BaseMod>, mods: seq<BaseMod>)
    requires ListsModFolders(t, modsPath, listed)
    requires |mods| == |listed| && forall i :: 0 <= i < |listed| ==> mods[i].modPath == listed[i].modPath
    ensures SiblingFolders(modsPath, mods)
  {
    forall i | 0 <= i < |mods|
      ensures |mods[i].modPath| == |modsPath| + 1 && IsPrefix(modsPath, mods[i].modPath)
    {
      assert listed[i] in listed;
    }
  }

  /** A sibling's marker files are not below another mod's folder. */
  lemma MarkerNotBelowSibling(modsPath: Path, a: Path, b: Path, q: Path)
    requires |a| == |modsPath| + 1 && |b| == |modsPath| + 1 && a != b
    requires IsMarkerOf(q, a)
    ensures !IsPrefix(b, q)
  {
    assert q[..|a|] == a;
  }

  /** What the check loop has removed from the tree after looking at `mods[..i]`. */
  ghost predicate SweptPrefix(t0: Tree, tree: Tree, mods: seq<BaseMod>, i: nat)
  {
    && i <= |mods|
    && (forall k :: i <= k < |mods| ==> AgreeBelow(tree, t0, mods[k].modPath))
    && (forall q :: q in tree ==> q in t0 && tree[q] == t0[q])
    && (forall q :: q in t0 && q !in tree ==> exists k :: 0 <= k < i && IsMarkerOf(q, mods[k].modPath))
  }

  /** Checking `mods[i]` touches only its own markers, so the later mods' folders are still as they were. */
  lemma SweepStep(t0: Tree, before: Tree, modsPath: Path, mods: seq<BaseMod>, i: nat, timeUpdated: int, mtime: MTime,
                  now: int)
    requires SiblingFolders(modsPath, mods) && i < |mods| && SweptPrefix(t0, before, mods, i)
    ensures SweptPrefix(t0, CheckSpec(before, mods[i].modPath, timeUpdated, mtime, now).tree, mods, i + 1)
  {
    var own := mods[i].modPath;
    var after := CheckSpec(before, own, timeUpdated, mtime, now).tree;
    CheckTreeChanges(before, own, timeUpdated, mtime, now);
    forall k | i < k < |mods|
      ensures AgreeBelow(after, t0, mods[k].modPath)
    {
      forall q | IsPrefix(mods[k].modPath, q)
        ensures (q in after <==> q in t0) && (q in after ==> after[q] == t0[q])
      {
        assert AgreeBelow(before, t0, mods[k].modPath);
        if q in before && q !in after {
          MarkerNotBelowSibling(modsPath, own, mods[k].modPath, q);
        }
      }
    }
    forall q | q in t0 && q !in after
      ensures exists k :: 0 <= k < i + 1 && IsMarkerOf(q, mods[k].modPath)
    {
      if q in before {
        assert IsMarkerOf(q, mods[i].modPath);
      }
    }
  }

  /** A mod skipped by the filter leaves the tree alone. */
  lemma SkipStep(t0: Tree, tree: Tree, mods: seq<BaseMod>, i: nat)
    requires i < |mods| && SweptPrefix(t0, tree, mods, i)
    ensures SweptPrefix(t0, tree, mods, i + 1)
  {
  }

  /** The IDs of some mods. */
  function IdsOf(ms: seq<BaseMod>): (ids: set<string>)
    ensures forall x :: x in ids <==> exists m :: m in ms && m.modId == x
  {
    set m | m in ms :: m.modId
  }

  lemma IdsOfAppend(ms: seq<BaseMod>, m: BaseMod)
    ensures IdsOf(ms + [m]) == IdsOf(ms) + {m.modId}
  {
    forall x | x in IdsOf(ms)
      ensures x in IdsOf(ms + [m])
    {
      var y :| y in ms && y.modId == x;
      assert y in ms + [m];
    }
    assert m in ms + [m];
  }

  /** Which of `mods` need an update, by `NeedsUpdate`. */
  ghost function UpdateFlags(t0: Tree, mods: seq<BaseMod>, ignoredMods: seq<string>, mtime: MTime, now: int)
    : (f: seq<bool>)
    ensures |f| == |mods|
    ensures forall k :: 0 <= k < |mods| ==> f[k] == NeedsUpdate(t0, mods[k], ignoredMods, mtime, now)
  {
    seq(|mods|, k requires 0 <= k < |mods| => NeedsUpdate(t0, mods[k], ignoredMods, mtime, now))
  }

  /**
   * `out` is what the result map holds after `mods[..i]`, where `flags`
   * says which mods need an update: each ID once, with the first flagged
   * mod of that ID, and every ID of a flagged mod present.
   */
  ghost predicate ReportsPrefix(mods: seq<BaseMod>, flags: seq<bool>, i: nat, out: seq<BaseMod>)
  {
    && i <= |mods| == |flags|
    && (forall a, b :: 0 <= a < b < |out| ==> out[a].modId != out[b].modId)
    && (forall m :: m in out ==>
          exists k :: 0 <= k < i && mods[k] == m && flags[k]
                      && forall k' :: 0 <= k' < k && mods[k'].modId == m.modId ==> !flags[k'])
    && (forall k :: 0 <= k < i && flags[k] ==> exists m :: m in out && m.modId == mods[k].modId)
  }

  /** A flagged mod whose ID is new joins the result. */
  lemma ReportAdd(mods: seq<BaseMod>, flags: seq<bool>, i: nat, out: seq<BaseMod>)
    requires i < |mods| && ReportsPrefix(mods, flags, i, out)
    requires flags[i] && mods[i].modId !in IdsOf(out)
    ensures ReportsPrefix(mods, flags, i + 1, out + [mods[i]])
  {
    ReportAddFirst(mods, flags, i, out);
    ReportAddComplete(mods, flags, i, out);
    ReportAddDistinct(mods, i, out);
  }

  lemma ReportAddFirst(mods: seq<BaseMod>, flags: seq<bool>, i: nat, out: seq<BaseMod>)
    requires i < |mods| && ReportsPrefix(mods, flags, i, out)
    requires flags[i] && mods[i].modId !in IdsOf(out)
    ensures forall x :: x in out + [mods[i]] ==>
              exists k :: 0 <= k < i + 1 && mods[k] == x && flags[k]
                          && forall k' :: 0 <= k' < k && mods[k'].modId == x.modId ==> !flags[k']
  {
    var m := mods[i];
    forall x | x in out + [m]
      ensures exists k :: 0 <= k < i + 1 && mods[k] == x && flags[k]
                          && forall k' :: 0 <= k' < k && mods[k'].modId == x.modId ==> !flags[k']
    {
      if x !in out {
        assert x == m;
        forall k' | 0 <= k' < i && mods[k'].modId == m.modId
          ensures !flags[k']
        {
        }
      }
    }
  }

  lemma ReportAddComplete(mods: seq<BaseMod>, flags: seq<bool>, i: nat, out: seq<BaseMod>)
    requires i < |mods| && ReportsPrefix(mods, flags, i, out)
    ensures forall k :: 0 <= k < i + 1 && flags[k] ==> exists y :: y in out + [mods[i]] && y.modId == mods[k].modId
  {
    var out' := out + [mods[i]];
    forall k | 0 <= k < i + 1 && flags[k]
      ensures exists y :: y in out' && y.modId == mods[k].modId
    {
      if k == i {
        assert mods[i] in out';
      } else {
        var y :| y in out && y.modId == mods[k].modId;
        assert y in out';
      }
    }
  }

  lemma ReportAddDistinct(mods: seq<BaseMod>, i: nat, out: seq<BaseMod>)
    requires i < |mods| && mods[i].modId !in IdsOf(out)
    requires forall a, b :: 0 <= a < b < |out| ==> out[a].modId != out[b].modId
    ensures forall a, b :: 0 <= a < b < |out| + 1 ==> (out + [mods[i]])[a].modId != (out + [mods[i]])[b].modId
  {
    var out' := out + [mods[i]];
    forall a, b | 0 <= a < b < |out'|
      ensures out'[a].modId != out'[b].modId
    {
      if b == |out| {
        assert out'[a] in out;
      }
    }
  }

  /** An unflagged mod, or one whose ID is already in the result, changes nothing. */
  lemma ReportKeep(mods: seq<BaseMod>, flags: seq<bool>, i: nat, out: seq<BaseMod>)
    requires i < |mods| && ReportsPrefix(mods, flags, i, out)
    requires !flags[i] || mods[i].modId in IdsOf(out)
    ensures ReportsPrefix(mods, flags, i + 1, out)
  {
    forall k | 0 <= k < i + 1 && flags[k]
      ensures exists y :: y in out && y.modId == mods[k].modId
    {
      if k == i {
        assert mods[i].modId in IdsOf(out);
      }
    }
  }

  /**
   * `out` is the result of `query_mods_for_updates` over `mods`, judged
   * on the tree `t0`: each ID at most once; each entry is a mod needing
   * an update with no earlier mod of its ID needing one; and every ID
   * of a mod needing an update is present.
   */
  ghost predicate ReportsFirstNeeding(t0: Tree, mods: seq<BaseMod>, out: seq<BaseMod>, ignoredMods: seq<string>,
                                     mtime: MTime, now: int)
  {
    && (forall a, b :: 0 <= a < b < |out| ==> out[a].modId != out[b].modId)
    && (forall m :: m in out ==>
          exists k :: 0 <= k < |mods| && mods[k] == m && NeedsUpdate(t0, m, ignoredMods, mtime, now)
                      && forall k' :: 0 <= k' < k && mods[k'].modId == m.modId ==>
                                        !NeedsUpdate(t0, mods[k'], ignoredMods, mtime, now))
    && (forall k :: 0 <= k < |mods| && NeedsUpdate(t0, mods[k], ignoredMods, mtime, now) ==>
          exists m :: m in out && m.modId == mods[k].modId)
  }

  /** Going from `t0` to `tree`, nothing appeared or changed, and only marker files of `mods` were removed. */
  ghost predicate RemovesOnlyMarkers(t0: Tree, tree: Tree, mods: seq<BaseMod>)
  {
    && (forall q :: q in tree ==> q in t0 && tree[q] == t0[q])
    && (forall q :: q in t0 && q !in tree ==> exists k :: 0 <= k < |mods| && IsMarkerOf(q, mods[k].modPath))
  }

  lemma ReportsAll(t0: Tree, mods: seq<BaseMod>, out: seq<BaseMod>, ignoredMods: seq<string>, mtime: MTime, now: int)
    requires ReportsPrefix(mods, UpdateFlags(t0, mods, ignoredMods, mtime, now), |mods|, out)
    ensures ReportsFirstNeeding(t0, mods, out, ignoredMods, mtime, now)
  {
  }

  /**
   * The check loop of `query_mods_for_updates`: every mod passing the
   * filter and not ignored is checked, in order, and the first mod of
   * each ID needing an update is kept.
   */
  method CheckMods(fs: Fs, ghost modsPath: Path, mods: seq<BaseMod>, ignoredMods: seq<string>, mtime: MTime, now: int)
    returns (out: seq<BaseMod>)
    requires fs.Valid() && SiblingFolders(modsPath, mods)
    modifies fs
    ensures fs.Valid()
    ensures ReportsFirstNeeding(old(fs.tree), mods, out, ignoredMods, mtime, now)
    ensures RemovesOnlyMarkers(old(fs.tree), fs.tree, mods)
  {
    ghost var t0 := fs.tree;
    ghost var flags := UpdateFlags(t0, mods, ignoredMods, mtime, now);
    out := [];
    var seen: set<string> := {};
    for i := 0 to |mods|
      invariant fs.Valid()
      invariant SweptPrefix(t0, fs.tree, mods, i)
      invariant seen == IdsOf(out)
      invariant ReportsPrefix(mods, flags, i, out)
    {
      var m := mods[i];
      if m.details.Some? && Eligible(m.details.value) && m.modId !in ignoredMods {
        ghost var before := fs.tree;
        var needs := CheckMod(fs, m.modPath, m.details.value.timeUpdated, mtime, now);
        CheckLocal(before, t0, m.modPath, m.details.value.timeUpdated, mtime, now);
        SweepStep(t0, before, modsPath, mods, i, m.details.value.timeUpdated, mtime, now);
        assert flags[i] == (needs == Some(true));
        if needs == Some(true) && m.modId !in seen {
          ReportAdd(mods, flags, i, out);
          IdsOfAppend(out, m);
          out := out + [m];
          seen := seen + {m.modId};
        } else {
          ReportKeep(mods, flags, i, out);
        }
      } else {
        SkipStep(t0, fs.tree, mods, i);
        assert !flags[i];
        ReportKeep(mods, flags, i, out);
      }
    }
    ReportsAll(t0, mods, out, ignoredMods, mtime, now);
  }

  /**
   * The backend's `query_mods_for_updates`: list the mod folders, fill
   * in details batch by batch, keep the mods that pass the filter and
   * are not ignored, check each one, and report each ID needing an
   * update once, with the first such folder in listing order (the
   * source's result map keeps the first insertion; the order of its
   * values is unspecified and here follows the listing). `listed` and
   * `mods` are the listing before and after the details were filled in.
   */
  method QueryModsForUpdates(fs: Fs, modsPath: Path, ignoredMods: seq<string>, query: BatchQuery, mtime: MTime,
                             now: int)
    returns (r: Result<seq<BaseMod>, string>, ghost listed: seq<BaseMod>, ghost mods: seq<BaseMod>)
    requires fs.Valid()
    modifies fs
    ensures fs.Valid()
    ensures r.Err? <==> !IsDir(old(fs.tree), modsPath)
    ensures r.Err? ==> fs.tree == old(fs.tree)
    ensures r.Ok? ==> && ListsModFolders(old(fs.tree), modsPath, listed) && |mods| == |listed|
                      && forall i :: 0 <= i < |listed| ==> mods[i] == Filled(listed[i], query(BatchIds(listed, i / BatchCount)))
    ensures r.Ok? ==> ReportsFirstNeeding(old(fs.tree), mods, r.value, ignoredMods, mtime, now)
    ensures RemovesOnlyMarkers(old(fs.tree), fs.tree, mods)
  {
    ghost var t0 := fs.tree;
    mods := [];
    listed := [];
    var listing := ListInstalledMods(fs.tree, modsPath);
    if listing.Err? {
      return Err(listing.error), [], [];
    }
    var found := listing.value;
    listed := found;
    if |found| == 0 {
      return Ok([]), found, found;
    }
    var filled := UpdateModDetails(found, query);
    mods := filled;
    ListedAreSiblings(t0, modsPath, listed, mods);
    if forall k :: 0 <= k < |filled| ==> filled[k].details.None? {
      return Ok([]), listed, mods;
    }
    var out := CheckMods(fs, modsPath, filled, ignoredMods, mtime, now);
    return Ok(out), listed, mods;
  }
}
