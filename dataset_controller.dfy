/** The server's dataset controller (server/controller/DatasetController.js): the paged
    aggregation of dataset summaries from the OSDR API and the pass-through proxy. The upstream
    responses are inputs; an upstream call that fails is a `Failure` carrying the exception axios raises. */
module DatasetController {
  import opened Wrappers
  import opened JsStrings
  import opened JsonValues

  const OsdrApiBaseUrl := "https://visualization.osdr.nasa.gov/biodata/api/v2"
  const DefaultLimit := 10
  const DefaultOffset := 0
  const ProxyError := "Proxy request failed"
  const AggregateError := "Failed to aggregate datasets and metadata from external API."

  // ---------------------------------------------------------------------------
  // Query parameters
  // ---------------------------------------------------------------------------

  /** `parseInt(q) || fallback`: NaN and 0 both fall back. `None` is a missing parameter. */
  function NumberParam(q: Option<string>, fallback: int): (r: int)
    ensures q.None? ==> r == fallback
    ensures q.Some? && ParseInt(q.value).Some? && ParseInt(q.value).value != 0 ==> r == ParseInt(q.value).value
    ensures q.Some? && (ParseInt(q.value).None? || ParseInt(q.value) == Some(0)) ==> r == fallback
  {
    match q
    case None => fallback
    case Some(text) =>
      match ParseInt(text)
      case Some(n) => if n != 0 then n else fallback
      case None => fallback
  }

  function LimitParam(q: Option<string>): int { NumberParam(q, DefaultLimit) }

  function OffsetParam(q: Option<string>): int { NumberParam(q, DefaultOffset) }

  /** A limit written as a number is read back as that number, except that 0 (being falsy)
      becomes the default 10; text after the digits is ignored, as parseInt does. */
  lemma LimitOfNumber(n: int, rest: string)
    requires rest == "" || DigitValue(rest[0]) == 36
    ensures LimitParam(Some(IntToString(n) + rest)) == if n == 0 then DefaultLimit else n
    ensures OffsetParam(Some(IntToString(n) + rest)) == n
  {
    ParseIntOfIntToString(n, rest);
  }

  /** A limit that is not a number, for example "abc", falls back to the default. */
  lemma LimitOfText(q: string)
    requires |q| > 0 && 'a' <= q[0] <= 'z'
    ensures LimitParam(Some(q)) == DefaultLimit
    ensures OffsetParam(Some(q)) == DefaultOffset
  {
    assert TrimStart(q) == q by { assert !IsJsSpace(q[0]); }
    assert DigitRunLength(q, 10) == 0;
  }

  // ---------------------------------------------------------------------------
  // Array.prototype.slice
  // ---------------------------------------------------------------------------

  /** How `slice` resolves an index against a length: negative counts from the end; the result
      is clamped to `[0, n]`. */
  function RelIndex(i: int, n: nat): (r: nat)
    ensures r <= n
  {
    if i < 0 then (if n + i < 0 then 0 else n + i) else if i < n then i else n
  }

  /** `s.slice(start, end)`. */
  function Slice<T>(s: seq<T>, start: int, end: int): (r: seq<T>)
    ensures |r| == Max(0, RelIndex(end, |s|) - RelIndex(start, |s|))
    ensures forall k :: 0 <= k < |r| ==> r[k] == s[RelIndex(start, |s|) + k]
  {
    var from := RelIndex(start, |s|);
    var to := RelIndex(end, |s|);
    if from < to then s[from..to] else []
  }

  function Min(a: int, b: int): int { if a <= b then a else b }
  function Max(a: int, b: int): int { if a >= b then a else b }

  /** For a non-negative offset and limit the page is the elements at positions
      `[offset, offset + limit)` that exist, `min(limit, max(0, n - offset))` of them. */
  lemma SlicePage<T>(s: seq<T>, offset: int, limit: int)
    ensures offset >= 0 && limit >= 0 ==> |Slice(s, offset, offset + limit)| == Min(limit, Max(0, |s| - offset))
    ensures offset >= 0 && limit >= 0 ==> var page := Slice(s, offset, offset + limit);
      forall k :: 0 <= k < |page| ==> page[k] == s[offset + k]
  {
  }

  /** Consecutive pages of the same size tile the list: nothing is skipped or repeated. */
  lemma PagesTile<T>(s: seq<T>, offset: int, limit: int)
    requires offset >= 0 && limit >= 0
    ensures Slice(s, offset, offset + limit) + Slice(s, offset + limit, offset + 2 * limit)
         == Slice(s, offset, offset + 2 * limit)
  {
    var n := |s|;
    var a, b, c := RelIndex(offset, n), RelIndex(offset + limit, n), RelIndex(offset + 2 * limit, n);
    assert a <= b <= c;
    if a < b && b < c {
      assert s[a..b] + s[b..c] == s[a..c];
    }
  }

  // ---------------------------------------------------------------------------
  // Upstream failures and replies
  // ---------------------------------------------------------------------------

  /** An exception reaching a catch block: an axios error, which has a `response.status`
      when the upstream answered, or an exception the code itself raised. */
  datatype Exception =
    | HttpError(status: Option<int>, message: string)
    | ScriptError(error: JsError)
  {
    function Message(): string {
      match this
      case HttpError(_, m) => m
      case ScriptError(e) => JsonValues.Message(e)
    }
  }

  /** `error.response?.status || 500`. */
  function StatusFor(f: Exception): (status: int)
    ensures status != 0
    ensures status == 500 || (f.HttpError? && f.status == Some(status))
    ensures f.HttpError? && f.status.Some? && f.status.value != 0 ==> status == f.status.value
  {
    if f.HttpError? && f.status.Some? && f.status.value != 0 then f.status.value else 500
  }

  /** What the handler sends: a JSON body, or a status with the `{ error, details }` body. */
  datatype Reply<T> = Ok(body: T) | Fail(status: int, error: string, details: string)

  function FailureReply<T>(f: Exception, error: string): (r: Reply<T>)
    ensures r.Fail? && r.status == StatusFor(f) && r.error == error && r.details == f.Message()
  {
    Fail(StatusFor(f), error, f.Message())
  }

  // ---------------------------------------------------------------------------
  // getAllDatasets
  // ---------------------------------------------------------------------------

  /** One entry of the upstream dataset list. */
  datatype DatasetRef = DatasetRef(id: string, restUrl: Option<Json>)

  function MetadataUrl(id: string): string {
    OsdrApiBaseUrl + "/dataset/" + id + "/metadata/"
  }

  /** `Object.entries(listResponse.data || {}).map(...)`: one reference per entry, in key order.
      Reading `REST_URL` of a `null` entry throws. */
  function DatasetRefs(data: Option<Json>): (r: Result<seq<DatasetRef>, JsError>)
    ensures !Present(data) ==> r == Success([])
    ensures r.Success? && Present(data) ==> |r.value| == |Entries(data.value)|
    ensures r.Success? && Present(data) ==> forall k :: 0 <= k < |r.value| ==> r.value[k].id == Entries(data.value)[k].0
    ensures r.Failure? <==> Present(data) && exists k :: 0 <= k < |Entries(data.value)| && Entries(data.value)[k].1 == Null
  {
    if !Present(data) then Success([]) else RefsOf(Entries(data.value))
  }

  function RefsOf(entries: seq<(string, Json)>): (r: Result<seq<DatasetRef>, JsError>)
    ensures r.Success? ==> |r.value| == |entries|
    ensures r.Success? ==> forall k :: 0 <= k < |entries| ==>
      r.value[k].id == entries[k].0 && Get(entries[k].1, "REST_URL") == Success(r.value[k].restUrl)
    ensures r.Failure? <==> exists k :: 0 <= k < |entries| && entries[k].1 == Null
    decreases |entries|
  {
    if |entries| == 0 then Success([])
    else
      assert forall k :: 1 <= k < |entries| ==> entries[k] == entries[1..][k - 1];
      match Get(entries[0].1, "REST_URL")
      case Failure(e) => Failure(e)
      case Success(restUrl) =>
        match RefsOf(entries[1..])
        case Failure(e) => Failure(e)
        case Success(rest) => Success([DatasetRef(entries[0].0, restUrl)] + rest)
  }

  /** The record sent for one dataset. `Summary` carries a `title` and `documentLink` that may
      be any truthy JSON value and a `publicationDate` that is null (`None`) or an ISO day;
      `Degraded` is the placeholder for a failed metadata fetch. */
  datatype DatasetRecord =
    | Summary(id: string, title: Json, documentLink: Json, publicationDate: Option<string>)
    | Degraded(id: string, restUrl: Option<Json>)
  {
    function SourceType(): string { "OSDR" }

    function Title(): Json {
      match this
      case Summary(_, title, _, _) => title
      case Degraded(id, _) => Str("OSDR Study: " + id + " (Metadata Fetch Failed)")
    }

    function DocumentLink(): Option<Json> {
      match this
      case Summary(_, _, link, _) => Some(link)
      case Degraded(_, restUrl) => restUrl
    }
  }

  /** `new Date(ts * 1000).toISOString().split('T')[0]` for a truthy release timestamp;
      `isoDayOfMillis` is the calendar (`None`: the date is invalid and toISOString throws). */
  function ReleaseDay(ts: Json, isoDayOfMillis: int -> Option<string>): (r: Result<string, JsError>)
    ensures r.Success? <==> ts.Num? && isoDayOfMillis(ts.n * 1000).Some?
    ensures r.Success? ==> r.value == isoDayOfMillis(ts.n * 1000).value
    ensures r.Failure? ==> r.error == InvalidTimeValue
  {
    if ts.Num? then
      match isoDayOfMillis(ts.n * 1000)
      case Some(day) => Success(day)
      case None => Failure(InvalidTimeValue)
    else Failure(InvalidTimeValue)
  }

  /** The body of the per-dataset `try` once the metadata response arrived. */
  function SummaryOf(ref: DatasetRef, response: Json, isoDayOfMillis: int -> Option<string>): (r: Result<DatasetRecord, Exception>)
    ensures r.Success? ==> r.value.Summary? && r.value.id == ref.id
  {
    match Get(response, ref.id)
    case Failure(e) => Failure(ScriptError(e))
    case Success(entry) =>
      match Read(entry, "metadata")
      case Failure(e) => Failure(ScriptError(e))
      case Success(rawMetadata) =>
        match Read(rawMetadata, "study publication title")
        case Failure(e) => Failure(ScriptError(e))
        case Success(publicationTitle) =>
          var md := rawMetadata.value;
          var title := Or(Or(publicationTitle, Lookup(Entries(md), "study title")), Some(Str("OSDR Study: " + ref.id)));
          var link := Or(Or(Lookup(Entries(md), "project link"), ref.restUrl), Some(Str("#" + ref.id)));
          var ts := Lookup(Entries(md), "study_public_release_date");
          if Present(ts) then
            match ReleaseDay(ts.value, isoDayOfMillis)
            case Failure(e) => Failure(ScriptError(e))
            case Success(day) => Success(Summary(ref.id, title.value, link.value, Some(day)))
          else Success(Summary(ref.id, title.value, link.value, None))
  }

  /** The whole per-dataset task: fetch, extract, and fall back to the placeholder on any
      exception. It never fails. */
  function DatasetTask(ref: DatasetRef, fetch: string -> Result<Json, Exception>, isoDayOfMillis: int -> Option<string>): (r: DatasetRecord)
    ensures r.id == ref.id
    ensures fetch(MetadataUrl(ref.id)).Success? && SummaryOf(ref, fetch(MetadataUrl(ref.id)).value, isoDayOfMillis).Success? ==>
      r == SummaryOf(ref, fetch(MetadataUrl(ref.id)).value, isoDayOfMillis).value
    ensures fetch(MetadataUrl(ref.id)).Failure? || SummaryOf(ref, fetch(MetadataUrl(ref.id)).value, isoDayOfMillis).Failure? ==>
      r == Degraded(ref.id, ref.restUrl)
  {
    match fetch(MetadataUrl(ref.id))
    case Failure(_) => Degraded(ref.id, ref.restUrl)
    case Success(response) =>
      match SummaryOf(ref, response, isoDayOfMillis)
      case Success(record) => record
      case Failure(_) => Degraded(ref.id, ref.restUrl)
  }

  /** The handler: read `limit` and `offset` with `parseInt(...) || default` (`NumberParam`),
      then aggregate the page. Whatever the query, a failed list fetch is answered with its
      status and a listed catalogue with a page; without query parameters the page is the first
      ten datasets in upstream order (`GetAllDatasetsWritten` covers written parameters). */
  function GetAllDatasets(
    limitQuery: Option<string>,
    offsetQuery: Option<string>,
    list: Result<Option<Json>, Exception>,
    fetch: string -> Result<Json, Exception>,
    isoDayOfMillis: int -> Option<string>): (r: Reply<seq<DatasetRecord>>)
    ensures list.Failure? ==> r == FailureReply(list.error, AggregateError)
    ensures list.Success? && DatasetRefs(list.value).Failure? ==>
      r == FailureReply(ScriptError(DatasetRefs(list.value).error), AggregateError)
    ensures list.Success? && DatasetRefs(list.value).Success? ==> r.Ok?
    ensures limitQuery.None? && offsetQuery.None? && list.Success? && DatasetRefs(list.value).Success? ==>
      var refs := DatasetRefs(list.value).value;
      && |r.body| == Min(DefaultLimit, |refs|)
      && forall k :: 0 <= k < |r.body| ==> r.body[k] == DatasetTask(refs[k], fetch, isoDayOfMillis)
  {
    var limit, offset := LimitParam(limitQuery), OffsetParam(offsetQuery);
    assert limitQuery.None? && offsetQuery.None? ==> limit == DefaultLimit && offset == DefaultOffset;
    Aggregate(limit, offset, list, fetch, isoDayOfMillis)
  }

  /** The handler once its paging parameters are read: list the datasets, take the page and run
      one task per dataset on it, in order. A failed list fetch (or a `null` entry in the list)
      is answered with the upstream status or 500. With a listed catalogue and a non-negative
      offset and limit the reply is one record per dataset at positions `[offset, offset + limit)`
      of the upstream key order, `min(limit, max(0, n - offset))` of them, each carrying its
      dataset's id. */
  function Aggregate(
    limit: int,
    offset: int,
    list: Result<Option<Json>, Exception>,
    fetch: string -> Result<Json, Exception>,
    isoDayOfMillis: int -> Option<string>): (r: Reply<seq<DatasetRecord>>)
    ensures list.Failure? ==> r == FailureReply(list.error, AggregateError)
    ensures list.Success? && DatasetRefs(list.value).Failure? ==>
      r == FailureReply(ScriptError(DatasetRefs(list.value).error), AggregateError)
    ensures list.Success? && DatasetRefs(list.value).Success? ==> r.Ok?
    ensures list.Success? && DatasetRefs(list.value).Success? && offset >= 0 && limit >= 0 ==>
      var refs := DatasetRefs(list.value).value;
      && |r.body| == Min(limit, Max(0, |refs| - offset))
      && forall k :: 0 <= k < |r.body| ==>
           r.body[k].id == refs[offset + k].id && r.body[k] == DatasetTask(refs[offset + k], fetch, isoDayOfMillis)
  {
    match list
    case Failure(f) => FailureReply(f, AggregateError)
    case Success(data) =>
      match DatasetRefs(data)
      case Failure(e) => FailureReply(ScriptError(e), AggregateError)
      case Success(refs) =>
        var page := Slice(refs, offset, offset + limit);
        SlicePage(refs, offset, limit);
        Ok(PageTasks(page, fetch, isoDayOfMillis))
  }

  /** With a `limit` that parseInt reads as a positive `n` and an `offset` it reads as a
      non-negative `m` (for example "<n>" and "<m>", by `LimitOfNumber`), the reply is the
      `min(n, max(0, count - m))` datasets from position `m` on, one task each, in order. */
  lemma GetAllDatasetsWritten(
    limitText: string,
    offsetText: string,
    n: int,
    m: int,
    list: Result<Option<Json>, Exception>,
    fetch: string -> Result<Json, Exception>,
    isoDayOfMillis: int -> Option<string>)
    requires ParseInt(limitText) == Some(n) && n > 0
    requires ParseInt(offsetText) == Some(m) && m >= 0
    requires list.Success? && DatasetRefs(list.value).Success?
    ensures var r := GetAllDatasets(Some(limitText), Some(offsetText), list, fetch, isoDayOfMillis);
      var refs := DatasetRefs(list.value).value;
      && r.Ok?
      && |r.body| == Min(n, Max(0, |refs| - m))
      && forall k :: 0 <= k < |r.body| ==> r.body[k] == DatasetTask(refs[m + k], fetch, isoDayOfMillis)
  {
    assert GetAllDatasets(Some(limitText), Some(offsetText), list, fetch, isoDayOfMillis)
        == Aggregate(n, m, list, fetch, isoDayOfMillis);
  }

  /** `Promise.all(page.map(task))`: one task result per dataset, in page order. */
  function PageTasks(page: seq<DatasetRef>, fetch: string -> Result<Json, Exception>, isoDayOfMillis: int -> Option<string>): (r: seq<DatasetRecord>)
    ensures |r| == |page|
    ensures forall k :: 0 <= k < |page| ==> r[k] == DatasetTask(page[k], fetch, isoDayOfMillis)
  {
    seq(|page|, k requires 0 <= k < |page| => DatasetTask(page[k], fetch, isoDayOfMillis))
  }

  /** The fallback chains of a summary that was extracted: the title is the first truthy of
      "study publication title", "study title" and "OSDR Study: <id>"; the link the first
      truthy of "project link", the dataset's REST_URL and "#<id>"; the date is null exactly when
      the release timestamp is absent or falsy. */
  lemma SummaryFallbacks(ref: DatasetRef, response: Json, isoDayOfMillis: int -> Option<string>, md: Json)
    requires Get(response, ref.id).Success? && Read(Get(response, ref.id).value, "metadata") == Success(Some(md))
    requires SummaryOf(ref, response, isoDayOfMillis).Success?
    ensures var s := SummaryOf(ref, response, isoDayOfMillis).value;
      && Some(s.title) == Or(Or(Lookup(Entries(md), "study publication title"), Lookup(Entries(md), "study title")), Some(Str("OSDR Study: " + ref.id)))
      && Truthy(s.title)
      && Some(s.documentLink) == Or(Or(Lookup(Entries(md), "project link"), ref.restUrl), Some(Str("#" + ref.id)))
      && Truthy(s.documentLink)
      && (s.publicationDate.None? <==> !Present(Lookup(Entries(md), "study_public_release_date")))
  {
    var pub := Lookup(Entries(md), "study publication title");
    assert Read(Some(md), "study publication title") == Success(pub);
    var title := Or(Or(pub, Lookup(Entries(md), "study title")), Some(Str("OSDR Study: " + ref.id)));
    var link := Or(Or(Lookup(Entries(md), "project link"), ref.restUrl), Some(Str("#" + ref.id)));
    assert Present(title) && Present(link);
    var s := SummaryOf(ref, response, isoDayOfMillis).value;
    assert s.title == title.value && s.documentLink == link.value;
  }

  /** A metadata fetch that fails, or an extraction that throws (no entry for the id, null
      metadata, an invalid release date), yields the placeholder, which keeps the id and the
      REST_URL and has no publication date. */
  lemma FailedFetchDegrades(ref: DatasetRef, fetch: string -> Result<Json, Exception>, isoDayOfMillis: int -> Option<string>)
    requires fetch(MetadataUrl(ref.id)).Failure? || SummaryOf(ref, fetch(MetadataUrl(ref.id)).value, isoDayOfMillis).Failure?
    ensures DatasetTask(ref, fetch, isoDayOfMillis).Degraded?
    ensures DatasetTask(ref, fetch, isoDayOfMillis).Title() == Str("OSDR Study: " + ref.id + " (Metadata Fetch Failed)")
    ensures DatasetTask(ref, fetch, isoDayOfMillis).DocumentLink() == ref.restUrl
  {
  }

  // ---------------------------------------------------------------------------
  // proxyDatasetRequest
  // ---------------------------------------------------------------------------

  /** The upstream URL for a request: the base URL followed by the request URL with its first
      "/api/v1" removed. */
  function ProxyTarget(originalUrl: string): (r: string)
    ensures |r| >= |OsdrApiBaseUrl| && r[..|OsdrApiBaseUrl|] == OsdrApiBaseUrl
    ensures IndexOf(originalUrl, "/api/v1").None? ==> r == OsdrApiBaseUrl + originalUrl
  {
    OsdrApiBaseUrl + ReplaceFirst(originalUrl, "/api/v1", "")
  }

  /** A request URL without "/api/v1" is forwarded unchanged; one that starts with it loses
      exactly that prefix (and only the first occurrence). */
  lemma ProxyTargetShape(originalUrl: string, rest: string)
    ensures IndexOf(originalUrl, "/api/v1").None? ==> ProxyTarget(originalUrl) == OsdrApiBaseUrl + originalUrl
    ensures ProxyTarget("/api/v1" + rest) == OsdrApiBaseUrl + rest
  {
    var url := "/api/v1" + rest;
    assert StartsWith(url, "/api/v1");
    assert IndexOf(url, "/api/v1") == Some(0);
    assert url[..0] + "" + url[7..] == rest;
  }

  /** The proxy: the upstream JSON verbatim, or the upstream status (500 when there is none)
      with a fixed error text and the exception's message. */
  function ProxyDatasetRequest(originalUrl: string, upstream: string -> Result<Json, Exception>): (r: Reply<Json>)
    ensures upstream(ProxyTarget(originalUrl)).Success? ==> r == Ok(upstream(ProxyTarget(originalUrl)).value)
    ensures upstream(ProxyTarget(originalUrl)).Failure? ==>
      r == Fail(StatusFor(upstream(ProxyTarget(originalUrl)).error), ProxyError,
                upstream(ProxyTarget(originalUrl)).error.Message())
  {
    match upstream(ProxyTarget(originalUrl))
    case Success(data) => Ok(data)
    case Failure(f) => FailureReply(f, ProxyError)
  }
}
