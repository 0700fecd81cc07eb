// The desktop front end's older `mod_query.rs`. Its `query_mod_id` and
// `get_mod_last_updated_time` have the same bodies as the backend's and
// are shared from `ModQuery`; what differs is the strict decoding of
// Workshop details, the sequential batch fill in which a detail goes to
// the first mod of its ID only, and the order and strictness of the
// update filter.

module FrontendModQuery {
  import opened Common
  import opened FileSystem
  import opened Deserializers
  import opened ModQuery

  // ---------------------------------------------------------------
  // Strict decoding: the front end's `WorkshopFileDetails` has no
  // lenient decoders and no defaults.

  /** How plain `serde` decodes a field of the given kind: numbers only as numbers, flags only as booleans. */
  predicate StrictDecodes(kind: FieldKind, v: Json)
  {
    match kind
    case Text => v.JString?
    case Int32 => v.JNumber? && AsI64(v.n).Some? && I32Min <= AsI64(v.n).value <= I32Max
    case Int64 => v.JNumber? && AsI64(v.n).Some?
    case Unsigned64 => v.JNumber? && AsU64(v.n).Some?
    case Flag => v.JBool?
    case TagList => v.JArray? && forall i :: 0 <= i < |v.items| ==> IsTag(v.items[i])
  }

  /** A field that must be present and decode strictly. */
  predicate Strict(fields: map<string, Json>, name: string, kind: FieldKind)
  {
    name in fields && StrictDecodes(kind, fields[name])
  }

  /** Every field of the front end's `WorkshopFileDetails`, each required. */
  predicate StrictFieldsOk(f: map<string, Json>)
  {
    && Strict(f, "publishedfileid", Text) && Strict(f, "result", Int32) && Strict(f, "creator", Text)
    && Strict(f, "creator_app_id", Int32) && Strict(f, "consumer_app_id", Int32)
    && Strict(f, "filename", Text) && Strict(f, "file_size", Unsigned64) && Strict(f, "file_url", Text)
    && Strict(f, "hcontent_file", Text) && Strict(f, "preview_url", Text)
    && Strict(f, "hcontent_preview", Text) && Strict(f, "title", Text) && Strict(f, "description", Text)
    && Strict(f, "time_created", Int64) && Strict(f, "time_updated", Int64)
    && Strict(f, "visibility", Int32) && Strict(f, "flags", Int32) && Strict(f, "workshop_file_url", Text)
    && Strict(f, "workshop_accepted", Flag) && Strict(f, "show_subscribe_all", Flag)
    && Strict(f, "num_comments_developer", Int32) && Strict(f, "num_comments_public", Int32)
    && Strict(f, "banned", Flag) && Strict(f, "ban_reason", Text) && Strict(f, "banner", Text)
    && Strict(f, "can_be_deleted", Flag) && Strict(f, "app_name", Text) && Strict(f, "file_type", Int32)
    && Strict(f, "can_subscribe", Flag) && Strict(f, "subscriptions", Int32)
    && Strict(f, "favorited", Int32) && Strict(f, "followers", Int32)
    && Strict(f, "lifetime_subscriptions", Int32) && Strict(f, "lifetime_favorited", Int32)
    && Strict(f, "lifetime_followers", Int32) && Strict(f, "lifetime_playtime", Text)
    && Strict(f, "lifetime_playtime_sessions", Text) && Strict(f, "views", Int32)
    && Strict(f, "num_children", Int32) && Strict(f, "num_reports", Int32) && Strict(f, "tags", TagList)
  }

  /** The value of a strictly decoded integer field. */
  function IntField(f: map<string, Json>, name: string): int
    requires name in f && f[name].JNumber? && AsI64(f[name].n).Some?
  {
    AsI64(f[name].n).value
  }

  /** `serde_json::from_value::<WorkshopFileDetails>` with the front end's plain field types. */
  function StrictDecodeDetails(v: Json): (r: Option<Details>)
    ensures r.Some? <==> v.JObject? && StrictFieldsOk(v.fields)
  {
    if v.JObject? && StrictFieldsOk(v.fields) then
      var f := v.fields;
      Some(Details(f["publishedfileid"].s, IntField(f, "result"), IntField(f, "creator_app_id"),
                   IntField(f, "visibility"), f["banned"].b, IntField(f, "time_updated"), f["title"].s,
                   IntField(f, "file_type"), AsU64(f["file_size"].n).value, f["workshop_file_url"].s))
    else None
  }

  /** A strictly decoded field is accepted by the lenient decoder too. */
  lemma StrictIsLenient(kind: FieldKind, v: Json)
    requires StrictDecodes(kind, v)
    ensures Decodes(kind, v)
  {
  }

  lemma StrictFieldsLenient(f: map<string, Json>)
    requires StrictFieldsOk(f)
    ensures FieldsOk(f)
  {
    forall name, kind | Strict(f, name, kind)
      ensures Optional(f, name, kind) && Required(f, name, kind)
    {
      StrictIsLenient(kind, f[name]);
    }
  }

  /**
   * Whatever the front end decodes, the backend decodes to the same
   * details: the strict decoder accepts fewer documents, never
   * different ones.
   */
  lemma StrictAgreesWithLenient(v: Json)
    requires StrictDecodeDetails(v).Some?
    ensures DecodeDetails(v) == StrictDecodeDetails(v)
  {
    StrictFieldsLenient(v.fields);
  }

  /** A number sent as a string, which the Steam Web API does, is refused by the front end and accepted by the backend. */
  lemma StrictRefusesQuotedNumbers(s: string)
    requires ParseI64(s).Some?
    ensures !StrictDecodes(Int64, JString(s)) && Decodes(Int64, JString(s))
    ensures !StrictDecodes(Flag, JNumber(PosInt(1))) && Decodes(Flag, JNumber(PosInt(1)))
  {
  }

  /** The items that decode strictly, in order. */
  function StrictDecodeAll(items: seq<Json>): (r: seq<Details>)
    ensures |r| <= |items|
    ensures forall d :: d in r ==> exists i :: 0 <= i < |items| && StrictDecodeDetails(items[i]) == Some(d)
    ensures forall i :: 0 <= i < |items| && StrictDecodeDetails(items[i]).Some? ==> StrictDecodeDetails(items[i]).value in r
  {
    var decoded := seq(|items|, i requires 0 <= i < |items| => StrictDecodeDetails(items[i]));
    assert forall i :: 0 <= i < |items| ==> decoded[i] == StrictDecodeDetails(items[i]);
    Present(decoded)
  }

  /** What one try gives when it is not retried, with strict decoding. */
  function StrictSettle(a: Attempt): Result<seq<Details>, BatchError>
  {
    match a
    case SendFailed => Err(Transport)
    case Responded(status, body) =>
      if !IsSuccess(status) then Err(ApiStatus(status))
      else if body.None? then Err(InvalidJson)
      else Ok(StrictDecodeAll(DetailsArray(body.value)))
  }

  /** A strict answer fails exactly when the backend's does, the same way; its details are among the backend's. */
  lemma StrictSettleWithin(a: Attempt)
    ensures StrictSettle(a).Err? <==> Settle(a).Err?
    ensures StrictSettle(a).Err? ==> StrictSettle(a) == Settle(a)
    ensures StrictSettle(a).Ok? ==> forall d :: d in StrictSettle(a).value ==> d in Settle(a).value
  {
    if StrictSettle(a).Ok? {
      var items := DetailsArray(a.body.value);
      forall d | d in StrictSettle(a).value
        ensures d in Settle(a).value
      {
        var i :| 0 <= i < |items| && StrictDecodeDetails(items[i]) == Some(d);
        StrictAgreesWithLenient(items[i]);
      }
    }
  }

  /**
   * The front end's `query_mod_batch(ids, retries)`: the same retry
   * rule as the backend's, with strict decoding of the answer.
   */
  function StrictQueryModBatch(attempts: seq<Attempt>, retries: nat): (r: BatchOutcome)
    requires retries <= MaxRetries && |attempts| > MaxRetries - retries
    ensures |r.waits| <= MaxRetries - retries
    decreases MaxRetries - retries
  {
    if Retryable(attempts[0]) && retries < MaxRetries then
      var rest := StrictQueryModBatch(attempts[1..], retries + 1);
      BatchOutcome(rest.result, [retries + 1] + rest.waits)
    else BatchOutcome(StrictSettle(attempts[0]), [])
  }

  /** The front end waits exactly as the backend does before each retry. */
  lemma {:induction false} StrictBatchWaits(attempts: seq<Attempt>, retries: nat)
    requires retries <= MaxRetries && |attempts| > MaxRetries - retries
    ensures StrictQueryModBatch(attempts, retries).waits == QueryModBatch(attempts, retries).waits
    decreases MaxRetries - retries
  {
    if Retryable(attempts[0]) && retries < MaxRetries {
      StrictBatchWaits(attempts[1..], retries + 1);
    }
  }

  /** The front end's answer is the strict reading of the try it stops at. */
  lemma {:induction false} StrictBatchResult(attempts: seq<Attempt>, retries: nat)
    requires retries <= MaxRetries && |attempts| > MaxRetries - retries
    ensures var r := StrictQueryModBatch(attempts, retries);
            r.result == StrictSettle(attempts[|r.waits|])
    decreases MaxRetries - retries
  {
    if Retryable(attempts[0]) && retries < MaxRetries {
      var rest := StrictQueryModBatch(attempts[1..], retries + 1);
      var r := StrictQueryModBatch(attempts, retries);
      assert r.result == rest.result && |r.waits| == |rest.waits| + 1;
      StrictBatchResult(attempts[1..], retries + 1);
      assert attempts[1..][|rest.waits|] == attempts[|rest.waits| + 1];
    }
  }

  /**
   * The front end retries exactly as the backend does, and its answer is
   * the strict reading of the attempt the backend settles on.
   */
  lemma StrictBatchAgrees(attempts: seq<Attempt>, retries: nat)
    requires retries <= MaxRetries && |attempts| > MaxRetries - retries
    ensures var r := StrictQueryModBatch(attempts, retries);
            && r.waits == QueryModBatch(attempts, retries).waits
            && r.result == StrictSettle(attempts[|QueryModBatch(attempts, retries).waits|])
  {
    StrictBatchWaits(attempts, retries);
    StrictBatchResult(attempts, retries);
  }

  // ---------------------------------------------------------------
  // Filling in details, batch by batch.

  /** The index at which the batch of item `i` starts. */
  function BatchStart(i: nat): nat
  {
    (i / BatchCount) * BatchCount
  }

  /** No earlier mod of its batch has the ID of `mods[i]`. */
  predicate FirstOfIdInBatch(mods: seq<BaseMod>, i: nat)
    requires i < |mods|
  {
    forall j :: BatchStart(i) <= j < i ==> mods[j].modId != mods[i].modId
  }

  /**
   * A mod after its batch's answer in the front end: only the first mod
   * of each ID in the batch is filled in (with the last detail of that
   * ID, since each detail overwrites the one before); later mods of the
   * same ID keep no details.
   */
  function FirstFilled(mods: seq<BaseMod>, i: nat, res: Result<seq<Details>, BatchError>): BaseMod
    requires i < |mods|
  {
    if FirstOfIdInBatch(mods, i) then Filled(mods[i], res) else mods[i]
  }

  /** `iter_mut().find(|m| m.mod_id == id)` over `mods[start..end]`. */
  method FindFirst(mods: seq<BaseMod>, start: nat, end: nat, id: string) returns (r: Option<nat>)
    requires start <= end <= |mods|
    ensures r.Some? ==> start <= r.value < end && mods[r.value].modId == id
                        && forall j :: start <= j < r.value ==> mods[j].modId != id
    ensures r.None? ==> forall j :: start <= j < end ==> mods[j].modId != id
  {
    var j := start;
    while j < end
      invariant start <= j <= end
      invariant forall l :: start <= l < j ==> mods[l].modId != id
    {
      if mods[j].modId == id {
        return Some(j);
      }
      j := j + 1;
    }
    return None;
  }

  /** Within one batch, the mods filled from the first `k` details. */
  ghost predicate FilledFromPrefix(mods: seq<BaseMod>, out: seq<BaseMod>, start: nat, end: nat, ds: seq<Details>)
    requires start <= end <= |mods| == |out|
  {
    forall j :: start <= j < end ==>
      out[j] == (if (forall l :: start <= l < j ==> mods[l].modId != mods[j].modId) && mods[j].modId in DetailsMap(ds)
                 then mods[j].(details := Some(DetailsMap(ds)[mods[j].modId]))
                 else mods[j])
  }

  /** Giving one more detail to the first mod of its ID. */
  lemma FillStep(mods: seq<BaseMod>, out: seq<BaseMod>, next: seq<BaseMod>, start: nat, end: nat, ds: seq<Details>,
                 k: nat, found: Option<nat>)
    requires start <= end <= |mods| == |out| && k < |ds|
    requires forall j :: 0 <= j < |out| ==> out[j].modId == mods[j].modId
    requires FilledFromPrefix(mods, out, start, end, ds[..k])
    requires found.Some? ==> start <= found.value < end && mods[found.value].modId == ds[k].publishedfileid
                             && forall j :: start <= j < found.value ==> mods[j].modId != ds[k].publishedfileid
    requires found.None? ==> forall j :: start <= j < end ==> mods[j].modId != ds[k].publishedfileid
    requires next == if found.Some? then out[found.value := out[found.value].(details := Some(ds[k]))] else out
    ensures |next| == |mods|
    ensures forall j :: 0 <= j < |next| ==> next[j].modId == mods[j].modId
    ensures forall i :: 0 <= i < |mods| && (i < start || end <= i) ==> next[i] == out[i]
    ensures FilledFromPrefix(mods, next, start, end, ds[..k + 1])
  {
    assert ds[..k + 1][..k] == ds[..k];
    assert DetailsMap(ds[..k + 1]) == DetailsMap(ds[..k])[ds[k].publishedfileid := ds[k]];
  }

  /** The batch of `b`, filled from its whole answer. */
  lemma BatchFilled(mods: seq<BaseMod>, out: seq<BaseMod>, b: nat, res: Result<seq<Details>, BatchError>)
    requires b * BatchCount < |mods| == |out|
    requires res.Ok? ==> FilledFromPrefix(mods, out, b * BatchCount, BatchEnd(b, |mods|), res.value)
    requires res.Err? ==> forall i :: b * BatchCount <= i < BatchEnd(b, |mods|) ==> out[i] == mods[i]
    ensures forall i :: b * BatchCount <= i < BatchEnd(b, |mods|) ==> out[i] == FirstFilled(mods, i, res)
  {
    forall i | b * BatchCount <= i < BatchEnd(b, |mods|)
      ensures out[i] == FirstFilled(mods, i, res)
    {
      IndexInBatch(b, i);
      assert BatchStart(i) == b * BatchCount;
    }
  }

  /** Each detail in turn goes to the first mod of `[start, end)` with its ID. */
  method GiveDetails(mods: seq<BaseMod>, out: seq<BaseMod>, start: nat, end: nat, ds: seq<Details>)
    returns (filled: seq<BaseMod>)
    requires start <= end <= |mods| == |out|
    requires forall j :: 0 <= j < |out| ==> out[j].modId == mods[j].modId
    requires forall i :: start <= i < end ==> out[i] == mods[i]
    ensures |filled| == |mods|
    ensures forall j :: 0 <= j < |filled| ==> filled[j].modId == mods[j].modId
    ensures forall i :: 0 <= i < |mods| && (i < start || end <= i) ==> filled[i] == out[i]
    ensures FilledFromPrefix(mods, filled, start, end, ds)
  {
    filled := out;
    assert FilledFromPrefix(mods, filled, start, end, ds[..0]);
    for k := 0 to |ds|
      invariant |filled| == |mods|
      invariant forall j :: 0 <= j < |filled| ==> filled[j].modId == mods[j].modId
      invariant FilledFromPrefix(mods, filled, start, end, ds[..k])
      invariant forall i :: 0 <= i < |mods| && (i < start || end <= i) ==> filled[i] == out[i]
    {
      var found := FindFirst(filled, start, end, ds[k].publishedfileid);
      var next := filled;
      if found.Some? {
        next := filled[found.value := filled[found.value].(details := Some(ds[k]))];
      }
      FillStep(mods, filled, next, start, end, ds, k, found);
      filled := next;
    }
    assert ds[..|ds|] == ds;
  }

  /** One batch: each returned detail goes to the first mod of the batch with its ID. */
  method FillBatch(mods: seq<BaseMod>, out: seq<BaseMod>, b: nat, res: Result<seq<Details>, BatchError>)
    returns (filled: seq<BaseMod>)
    requires b * BatchCount < |mods| == |out|
    requires forall j :: 0 <= j < |out| ==> out[j].modId == mods[j].modId
    requires forall i :: b * BatchCount <= i < |mods| ==> out[i] == mods[i]
    ensures |filled| == |mods|
    ensures forall j :: 0 <= j < |filled| ==> filled[j].modId == mods[j].modId
    ensures forall i :: 0 <= i < |mods| && (i < b * BatchCount || BatchEnd(b, |mods|) <= i) ==> filled[i] == out[i]
    ensures forall i :: b * BatchCount <= i < BatchEnd(b, |mods|) ==> filled[i] == FirstFilled(mods, i, res)
  {
    filled := out;
    if res.Ok? {
      filled := GiveDetails(mods, out, b * BatchCount, BatchEnd(b, |mods|), res.value);
    }
    BatchFilled(mods, filled, b, res);
  }

  /**
   * The fill loop of the front end's `query_mods_for_updates`: the
   * batches are queried one after the other, and each returned detail
   * is given to the first mod of its batch whose ID matches.
   */
  method FillFirstMatches(mods: seq<BaseMod>, query: BatchQuery) returns (out: seq<BaseMod>)
    ensures |out| == |mods|
    ensures forall i :: 0 <= i < |mods| ==> out[i] == FirstFilled(mods, i, query(BatchIds(mods, i / BatchCount)))
  {
    out := mods;
    var b := 0;
    while b * BatchCount < |mods|
      invariant |out| == |mods|
      invariant forall i :: 0 <= i < |mods| && i < b * BatchCount ==>
                  i / BatchCount * BatchCount <= |mods| && out[i] == FirstFilled(mods, i, query(BatchIds(mods, i / BatchCount)))
      invariant forall i :: b * BatchCount <= i < |mods| ==> out[i] == mods[i]
      invariant forall j :: 0 <= j < |out| ==> out[j].modId == mods[j].modId
    {
      var res := query(BatchIds(mods, b));
      out := FillBatch(mods, out, b, res);
      forall i | b * BatchCount <= i < BatchEnd(b, |mods|)
        ensures i / BatchCount == b
      {
        IndexInBatch(b, i);
      }
      b := b + 1;
    }
  }

  /**
   * Within a batch, a later mod with the ID of an earlier one gets no
   * details in the front end, while the backend fills in both.
   */
  lemma LaterDuplicateUnfilled(mods: seq<BaseMod>, i: nat, j: nat, res: Result<seq<Details>, BatchError>)
    requires i < j < |mods| && BatchStart(i) == BatchStart(j) && mods[i].modId == mods[j].modId
    requires res.Ok? && exists k :: 0 <= k < |res.value| && res.value[k].publishedfileid == mods[j].modId
    ensures FirstFilled(mods, j, res) == mods[j]
    ensures Filled(mods[j], res).details.Some? && Filled(mods[j], res).details.value.publishedfileid == mods[j].modId
  {
    FilledFacts(mods[j], res);
  }

  // ---------------------------------------------------------------
  // The update check, mod by mod.

  /** Why the front end's query ends without a result: an I/O error, or a panic that ends the command. */
  datatype QueryError = Failed(message: string) | Panicked

  /**
   * The front end's filter: a missing file (result 9), a private or
   * banned file, or another game's file is skipped; any other result
   * code is only logged.
   */
  predicate FrontendEligible(d: Details)
  {
    d.result != 9 && d.visibility == 0 && !d.banned && d.creatorAppId == RimWorldAppIdNumber
  }

  /** The front end admits every file the backend admits, and also files with a result code other than 1 and 9. */
  lemma FrontendFilterWider(d: Details)
    ensures Eligible(d) ==> FrontendEligible(d)
    ensures FrontendEligible(d) && !Eligible(d) <==> FrontendEligible(d) && d.result != 1
  {
  }

  /** What one mod contributes to the front end's query. */
  datatype Verdict = Skipped | Aborted(error: QueryError) | Compared(newer: bool)

  /**
   * One mod in the front end's check loop, before the ignore list is
   * consulted: skipped without details or by the filter; the remote
   * time `time_updated as u64` past the clock's range (a negative
   * value) panics; an error reading the last-updated time aborts;
   * otherwise whether the remote time is more than a second later.
   */
  function FrontendCheckSpec(t: Tree, m: BaseMod, mtime: MTime, now: int): Read<Verdict>
  {
    if m.details.None? || !FrontendEligible(m.details.value) then Read(t, Skipped)
    else if AsU64Wrapping(m.details.value.timeUpdated) > I64Max then Read(t, Aborted(Panicked))
    else
      var lu := LastUpdatedSpec(t, m.modPath, mtime, now);
      Read(lu.tree, if lu.value.Err? then Aborted(Failed(lu.value.error))
                    else Compared(SecondsNewer(m.details.value.timeUpdated, lu.value.value) > 1))
  }

  /**
   * The front end's rule: a panic exactly for a negative `time_updated`,
   * an error exactly when the mod folder is gone, and otherwise "newer"
   * exactly when `time_updated` exceeds the last-updated time by more
   * than a second.
   */
  lemma FrontendRule(t: Tree, m: BaseMod, mtime: MTime, now: int)
    requires WellFormed(t) && m.details.Some? && FrontendEligible(m.details.value)
    requires I64Min <= m.details.value.timeUpdated <= I64Max
    ensures var v := FrontendCheckSpec(t, m, mtime, now).value;
            var tu := m.details.value.timeUpdated;
            && (v == Aborted(Panicked) <==> tu < 0)
            && (v.Aborted? && v.error.Failed? <==> tu >= 0 && m.modPath !in t)
            && (v.Compared? ==> (v.newer <==> tu - LastUpdatedSpec(t, m.modPath, mtime, now).value.value > 1))
  {
    LastUpdatedFacts(t, m.modPath, mtime, now);
  }

  /** `get_mod_last_updated_time` reads and deletes only entries below the mod folder. */
  lemma LastUpdatedLocal(t1: Tree, t2: Tree, modPath: Path, mtime: MTime, now: int)
    requires AgreeBelow(t1, t2, modPath)
    ensures LastUpdatedSpec(t1, modPath, mtime, now).value == LastUpdatedSpec(t2, modPath, mtime, now).value
    ensures AgreeBelow(LastUpdatedSpec(t1, modPath, mtime, now).tree, LastUpdatedSpec(t2, modPath, mtime, now).tree, modPath)
  {
    OwnPaths(modPath);
    var pL := AboutFile(modPath, LastUpdatedFile);
    assert (pL in t1 <==> pL in t2) && (pL in t1 ==> t1[pL] == t2[pL]);
    assert (FileIdPath(modPath) in t1 <==> FileIdPath(modPath) in t2) && (modPath in t1 <==> modPath in t2);
    LastUpdatedTreeIsSwept(t1, modPath, mtime, now);
    LastUpdatedTreeIsSwept(t2, modPath, mtime, now);
    SweepAgrees(t1, t2, modPath, pL);
  }

  lemma FrontendCheckLocal(t1: Tree, t2: Tree, m: BaseMod, mtime: MTime, now: int)
    requires AgreeBelow(t1, t2, m.modPath)
    ensures FrontendCheckSpec(t1, m, mtime, now).value == FrontendCheckSpec(t2, m, mtime, now).value
    ensures AgreeBelow(FrontendCheckSpec(t1, m, mtime, now).tree, FrontendCheckSpec(t2, m, mtime, now).tree, m.modPath)
  {
    LastUpdatedLocal(t1, t2, m.modPath, mtime, now);
  }

  /** The check deletes at most the mod's `.lastupdated` marker. */
  lemma FrontendCheckTree(t: Tree, m: BaseMod, mtime: MTime, now: int)
    ensures var after := FrontendCheckSpec(t, m, mtime, now).tree;
            && (forall q :: q in after ==> q in t && after[q] == t[q])
            && (forall q :: q in t && q !in after ==> q == AboutFile(m.modPath, LastUpdatedFile))
  {
    var pL := AboutFile(m.modPath, LastUpdatedFile);
    SweepMarkerFacts(t, pL);
    if m.details.Some? && FrontendEligible(m.details.value) && AsU64Wrapping(m.details.value.timeUpdated) <= I64Max {
      LastUpdatedTreeIsSwept(t, m.modPath, mtime, now);
      assert FrontendCheckSpec(t, m, mtime, now).tree == SweepMarker(t, pL);
    } else {
      assert FrontendCheckSpec(t, m, mtime, now).tree == t;
    }
  }

  /** One mod's check on the live file system. */
  method CheckModInOrder(fs: Fs, m: BaseMod, mtime: MTime, now: int) returns (v: Verdict)
    requires fs.Valid()
    modifies fs
    ensures fs.Valid()
    ensures Read(fs.tree, v) == FrontendCheckSpec(old(fs.tree), m, mtime, now)
  {
    if m.details.None? {
      return Skipped;
    }
    var d := m.details.value;
    if d.result == 9 || d.visibility != 0 || d.banned || d.creatorAppId != RimWorldAppIdNumber {
      return Skipped;
    }
    if AsU64Wrapping(d.timeUpdated) > I64Max {
      return Aborted(Panicked);
    }
    var local := GetModLastUpdatedTime(fs, m.modPath, mtime, now);
    if local.Err? {
      return Aborted(Failed(local.error));
    }
    return Compared(SecondsNewer(d.timeUpdated, local.value) > 1);
  }

  /** The verdict of each mod's check, each judged on the tree `t0`. */
  ghost function Verdicts(t0: Tree, mods: seq<BaseMod>, mtime: MTime, now: int): (vs: seq<Verdict>)
    ensures |vs| == |mods|
    ensures forall k :: 0 <= k < |mods| ==> vs[k] == FrontendCheckSpec(t0, mods[k], mtime, now).value
  {
    seq(|mods|, k requires 0 <= k < |mods| => FrontendCheckSpec(t0, mods[k], mtime, now).value)
  }

  /** The tree each mod's check leaves, each judged on the tree `t0`. */
  ghost function CheckedTrees(t0: Tree, mods: seq<BaseMod>, mtime: MTime, now: int): (ts: seq<Tree>)
    ensures |ts| == |mods|
    ensures forall k :: 0 <= k < |mods| ==> ts[k] == FrontendCheckSpec(t0, mods[k], mtime, now).tree
  {
    seq(|mods|, k requires 0 <= k < |mods| => FrontendCheckSpec(t0, mods[k], mtime, now).tree)
  }

  /** Which mods the front end reports: compared as newer, and not ignored. */
  function FrontendFlags(vs: seq<Verdict>, mods: seq<BaseMod>, ignoredMods: seq<string>): (f: seq<bool>)
    requires |vs| == |mods|
    ensures |f| == |mods|
    ensures forall k :: 0 <= k < |mods| ==> (f[k] <==> vs[k] == Compared(true) && mods[k].modId !in ignoredMods)
  {
    seq(|mods|, k requires 0 <= k < |mods| => vs[k] == Compared(true) && mods[k].modId !in ignoredMods)
  }

  /** Mod `k` is the first whose check aborts the query, with `e`. */
  predicate FirstAbort(vs: seq<Verdict>, k: nat, e: QueryError)
  {
    k < |vs| && vs[k] == Aborted(e) && NoAbortBefore(vs, k)
  }

  /** No verdict before `i` aborts. */
  predicate NoAbortBefore(vs: seq<Verdict>, i: nat)
  {
    i <= |vs| && forall k :: 0 <= k < i ==> !vs[k].Aborted?
  }

  lemma NoAbortStep(vs: seq<Verdict>, i: nat)
    requires NoAbortBefore(vs, i) && i < |vs| && !vs[i].Aborted?
    ensures NoAbortBefore(vs, i + 1)
  {
  }

  /**
   * The tree after checking `mods[..i]` in order: below each checked
   * mod's folder, what its own check leaves (`trees`); below the others,
   * the original; and nothing but `.lastupdated` markers of checked mods
   * removed.
   */
  ghost predicate SweptInOrder(t0: Tree, tree: Tree, mods: seq<BaseMod>, trees: seq<Tree>, i: nat)
  {
    && i <= |mods| == |trees|
    && (forall k :: 0 <= k < i ==> AgreeBelow(tree, trees[k], mods[k].modPath))
    && (forall k :: i <= k < |mods| ==> AgreeBelow(tree, t0, mods[k].modPath))
    && (forall q :: q in tree ==> q in t0 && tree[q] == t0[q])
    && (forall q :: q in t0 && q !in tree ==> exists k :: 0 <= k < i && q == AboutFile(mods[k].modPath, LastUpdatedFile))
  }

  /** Removing at most `mods[i]`'s marker, agreeing below its folder with `trees[i]`, sweeps one more mod. */
  lemma SweptMarkerStep(t0: Tree, before: Tree, after: Tree, modsPath: Path, mods: seq<BaseMod>, trees: seq<Tree>,
                        i: nat)
    requires SiblingFolders(modsPath, mods) && i < |mods| && SweptInOrder(t0, before, mods, trees, i)
    requires AgreeBelow(after, trees[i], mods[i].modPath)
    requires forall q :: q in after ==> q in before && after[q] == before[q]
    requires forall q :: q in before && q !in after ==> q == AboutFile(mods[i].modPath, LastUpdatedFile)
    ensures SweptInOrder(t0, after, mods, trees, i + 1)
  {
    forall k, q | 0 <= k < |mods| && k != i && IsPrefix(mods[k].modPath, q)
      ensures (q in after <==> q in before) && (q in after ==> after[q] == before[q])
    {
      if q in before && q !in after {
        MarkerNotBelowSibling(modsPath, mods[i].modPath, mods[k].modPath, q);
      }
    }
  }

  /**
   * `vs` and `trees` are the verdicts and trees of the checks of `mods`,
   * each on `t0`. The trigger keeps the checks folded until one of them
   * is named.
   */
  ghost predicate Judged(t0: Tree, mods: seq<BaseMod>, mtime: MTime, now: int, vs: seq<Verdict>, trees: seq<Tree>)
  {
    && |vs| == |mods| && |trees| == |mods|
    && forall k {:trigger FrontendCheckSpec(t0, mods[k], mtime, now)} :: 0 <= k < |mods| ==>
         Read(trees[k], vs[k]) == FrontendCheckSpec(t0, mods[k], mtime, now)
  }

  lemma JudgedByDefinition(t0: Tree, mods: seq<BaseMod>, mtime: MTime, now: int)
    ensures Judged(t0, mods, mtime, now, Verdicts(t0, mods, mtime, now), CheckedTrees(t0, mods, mtime, now))
  {
  }

  lemma SweptInOrderStep(t0: Tree, before: Tree, modsPath: Path, mods: seq<BaseMod>, i: nat, mtime: MTime, now: int,
                         vs: seq<Verdict>, trees: seq<Tree>)
    requires Judged(t0, mods, mtime, now, vs, trees)
    requires SiblingFolders(modsPath, mods) && i < |mods| && SweptInOrder(t0, before, mods, trees, i)
    ensures SweptInOrder(t0, FrontendCheckSpec(before, mods[i], mtime, now).tree, mods, trees, i + 1)
  {
    var after := FrontendCheckSpec(before, mods[i], mtime, now).tree;
    FrontendCheckTree(before, mods[i], mtime, now);
    FrontendCheckLocal(before, t0, mods[i], mtime, now);
    assert trees[i] == FrontendCheckSpec(t0, mods[i], mtime, now).tree;
    SweptMarkerStep(t0, before, after, modsPath, mods, trees, i);
  }

  /** Checks `mods[i]` on the live tree; the verdict is the one on the original tree. */
  method CheckNext(fs: Fs, ghost t0: Tree, ghost modsPath: Path, mods: seq<BaseMod>, i: nat, mtime: MTime, now: int,
                   ghost vs: seq<Verdict>, ghost trees: seq<Tree>)
    returns (v: Verdict)
    requires Judged(t0, mods, mtime, now, vs, trees)
    requires fs.Valid() && SiblingFolders(modsPath, mods) && i < |mods| && SweptInOrder(t0, fs.tree, mods, trees, i)
    modifies fs
    ensures fs.Valid() && SweptInOrder(t0, fs.tree, mods, trees, i + 1)
    ensures v == vs[i]
  {
    ghost var before := fs.tree;
    v := CheckModInOrder(fs, mods[i], mtime, now);
    FrontendCheckLocal(before, t0, mods[i], mtime, now);
    assert vs[i] == FrontendCheckSpec(t0, mods[i], mtime, now).value;
    SweptInOrderStep(t0, before, modsPath, mods, i, mtime, now, vs, trees);
  }

  /**
   * Counts `mods[i]`, whose verdict is `v`, into the report: kept when
   * compared as newer, not ignored and its ID not yet seen.
   */
  method Tally(mods: seq<BaseMod>, ignoredMods: seq<string>, ghost vs: seq<Verdict>, ghost flags: seq<bool>, i: nat,
               v: Verdict, out: seq<BaseMod>, seen: set<string>)
    returns (out': seq<BaseMod>, seen': set<string>)
    requires |vs| == |mods| && flags == FrontendFlags(vs, mods, ignoredMods) && i < |mods| && v == vs[i]
    requires seen == IdsOf(out) && ReportsPrefix(mods, flags, i, out)
    ensures seen' == IdsOf(out') && ReportsPrefix(mods, flags, i + 1, out')
  {
    var m := mods[i];
    if v == Compared(true) && m.modId !in ignoredMods && m.modId !in seen {
      ReportAdd(mods, flags, i, out);
      IdsOfAppend(out, m);
      out' := out + [m];
      seen' := seen + {m.modId};
    } else {
      ReportKeep(mods, flags, i, out);
      out', seen' := out, seen;
    }
  }

  /**
   * The check loop's state after `mods[..i]`: the tree swept in order,
   * no abort yet, and `out`, with its IDs `seen`, the report so far.
   */
  ghost predicate InOrderLoop(t0: Tree, tree: Tree, mods: seq<BaseMod>, vs: seq<Verdict>, trees: seq<Tree>,
                              flags: seq<bool>, i: nat, out: seq<BaseMod>, seen: set<string>)
  {
    && SweptInOrder(t0, tree, mods, trees, i)
    && NoAbortBefore(vs, i)
    && seen == IdsOf(out)
    && ReportsPrefix(mods, flags, i, out)
  }

  /**
   * What the check loop leaves, given the verdicts `vs` and trees
   * `trees` of the checks on `t0`: an error is the first abort, at
   * `stop`; success means no mod aborted and `r` holds the first
   * reported mod of each reported ID; the tree is swept in order up to
   * and including the mod that stopped the loop.
   */
  ghost predicate LoopOutcome(t0: Tree, tree: Tree, mods: seq<BaseMod>, ignoredMods: seq<string>, vs: seq<Verdict>,
                              trees: seq<Tree>, r: Result<seq<BaseMod>, QueryError>, stop: nat)
    requires |vs| == |mods|
  {
    && (r.Err? ==> FirstAbort(vs, stop, r.error))
    && (r.Ok? ==> stop == |mods| && NoAbortBefore(vs, |mods|))
    && (r.Ok? ==> ReportsPrefix(mods, FrontendFlags(vs, mods, ignoredMods), |mods|, r.value))
    && SweptInOrder(t0, tree, mods, trees, if r.Ok? then |mods| else stop + 1)
  }

  /** The same, with the verdicts and trees of the checks on `t0` named. */
  ghost predicate InOrderOutcome(t0: Tree, tree: Tree, mods: seq<BaseMod>, ignoredMods: seq<string>, mtime: MTime,
                                 now: int, r: Result<seq<BaseMod>, QueryError>, vs: seq<Verdict>, stop: nat)
  {
    && vs == Verdicts(t0, mods, mtime, now)
    && LoopOutcome(t0, tree, mods, ignoredMods, vs, CheckedTrees(t0, mods, mtime, now), r, stop)
  }

  /** The check loop itself, on verdicts and trees already named. */
  method CheckLoop(fs: Fs, ghost modsPath: Path, mods: seq<BaseMod>, ignoredMods: seq<string>, mtime: MTime, now: int,
                   ghost vs: seq<Verdict>, ghost trees: seq<Tree>)
    returns (r: Result<seq<BaseMod>, QueryError>, ghost stop: nat)
    requires fs.Valid() && SiblingFolders(modsPath, mods) && Judged(fs.tree, mods, mtime, now, vs, trees)
    modifies fs
    ensures fs.Valid() && LoopOutcome(old(fs.tree), fs.tree, mods, ignoredMods, vs, trees, r, stop)
  {
    ghost var t0 := fs.tree;
    ghost var flags := FrontendFlags(vs, mods, ignoredMods);
    var out: seq<BaseMod> := [];
    var seen: set<string> := {};
    for i := 0 to |mods|
      invariant fs.Valid() && InOrderLoop(t0, fs.tree, mods, vs, trees, flags, i, out, seen)
    {
      var verdict := CheckNext(fs, t0, modsPath, mods, i, mtime, now, vs, trees);
      if verdict.Aborted? {
        return Err(verdict.error), i;
      }
      NoAbortStep(vs, i);
      out, seen := Tally(mods, ignoredMods, vs, flags, i, verdict, out, seen);
    }
    return Ok(out), |mods|;
  }

  /**
   * The check loop of the front end's `query_mods_for_updates`: each mod
   * in order, the first abort ending the whole query; a mod compared as
   * newer and not ignored is kept when its ID is new.
   */
  method CheckModsInOrder(fs: Fs, ghost modsPath: Path, mods: seq<BaseMod>, ignoredMods: seq<string>, mtime: MTime,
                          now: int)
    returns (r: Result<seq<BaseMod>, QueryError>, ghost vs: seq<Verdict>, ghost stop: nat)
    requires fs.Valid() && SiblingFolders(modsPath, mods)
    modifies fs
    ensures fs.Valid() && InOrderOutcome(old(fs.tree), fs.tree, mods, ignoredMods, mtime, now, r, vs, stop)
  {
    vs := Verdicts(fs.tree, mods, mtime, now);
    ghost var trees := CheckedTrees(fs.tree, mods, mtime, now);
    JudgedByDefinition(fs.tree, mods, mtime, now);
    r, stop := CheckLoop(fs, modsPath, mods, ignoredMods, mtime, now, vs, trees);
  }

  /**
   * The front end's `query_mods_for_updates`: list the mod folders (an
   * error when the mods path is missing or not a directory), fill in
   * each batch's details with the first mod of each ID, answer nothing
   * when no mod got details, and otherwise run the check loop, whose
   * first error aborts the query.
   */
  method QueryModsForUpdates(fs: Fs, modsPath: Path, ignoredMods: seq<string>, query: BatchQuery, mtime: MTime,
                             now: int)
    returns (r: Result<seq<BaseMod>, QueryError>, ghost listed: seq<BaseMod>, ghost mods: seq<BaseMod>,
             ghost vs: seq<Verdict>, ghost stop: nat)
    requires fs.Valid()
    modifies fs
    ensures fs.Valid()
    ensures !IsDir(old(fs.tree), modsPath) ==> r.Err? && r.error.Failed? && fs.tree == old(fs.tree)
    ensures IsDir(old(fs.tree), modsPath) ==>
              && ListsModFolders(old(fs.tree), modsPath, listed) && |mods| == |listed|
              && forall i :: 0 <= i < |listed| ==> mods[i] == FirstFilled(listed, i, query(BatchIds(listed, i / BatchCount)))
    ensures IsDir(old(fs.tree), modsPath) && (forall k :: 0 <= k < |mods| ==> mods[k].details.None?) ==>
              r == Ok([]) && fs.tree == old(fs.tree)
    ensures IsDir(old(fs.tree), modsPath) && (exists k :: 0 <= k < |mods| && mods[k].details.Some?) ==>
              InOrderOutcome(old(fs.tree), fs.tree, mods, ignoredMods, mtime, now, r, vs, stop)
  {
    ghost var t0 := fs.tree;
    mods, listed, vs, stop := [], [], [], 0;
    var listing := ListInstalledMods(fs.tree, modsPath);
    if listing.Err? {
      return Err(Failed(listing.error)), [], [], [], 0;
    }
    var found := listing.value;
    listed := found;
    if |found| == 0 {
      return Ok([]), found, found, [], 0;
    }
    var filled := FillFirstMatches(found, query);
    mods := filled;
    forall i | 0 <= i < |listed|
      ensures mods[i].modPath == listed[i].modPath
    {
      FilledFacts(listed[i], query(BatchIds(listed, i / BatchCount)));
    }
    ListedAreSiblings(t0, modsPath, listed, mods);
    if forall k :: 0 <= k < |filled| ==> filled[k].details.None? {
      return Ok([]), listed, mods, [], 0;
    }
    r, vs, stop := CheckModsInOrder(fs, modsPath, filled, ignoredMods, mtime, now);
  }
}
