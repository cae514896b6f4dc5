/** The detail endpoint of backend/app.py (`get_course_details`): a lookup
    in `course_details_cache` by (group, key, srcdb); on a miss, one POST to
    the upstream details route, the fields picked out of its JSON answer,
    the meeting fields parsed, and the row written with INSERT OR REPLACE.
    The upstream service is an arbitrary function of the request and of how
    many calls came before it. */
module Details {
  import opened Wrappers
  import opened Text
  import opened JsonValue
  import opened Meeting
  import opened Catalog

  /** The request body: `group`, `key`, `srcdb` and `matched`. */
  datatype DetailsRequest = DetailsRequest(group: string, key: string, srcdb: string, matched: string)

  /** What `requests.post` gives back: a transport failure (connection
      error, timeout), or a status code with a body that decodes as JSON
      (`Some`) or does not (`None`). */
  datatype HttpResponse = TransportFailure | Reply(status: int, body: Option<Json>)

  /** The two HTTP 500 answers: "Failed to fetch course details" for a
      `requests` exception, "Error processing course details" for any other. */
  datatype DetailsError = FetchFailed | ProcessingFailed

  /** The dictionary the endpoint returns. */
  datatype CourseDetails = CourseDetails(
    description: Json, clssnotes: Json, hoursHtml: Json, status: Json, component: Json,
    instructionalMethod: Json, campusLocation: Json, registrationRestrictions: Json,
    meetingHtml: Json, meetPattern: string, meetStartDate: string, meetEndDate: string,
    datesHtml: Json, allSections: Json, raw: Json)

  function KeyOf(req: DetailsRequest): CacheKey {
    CacheKey(req.group, req.key, req.srcdb)
  }

  // ---------------------------------------------------------------------------
  // The upstream service
  // ---------------------------------------------------------------------------

  /** The upstream details route, with the log of the requests sent to it. */
  class Upstream {
    const respond: (DetailsRequest, nat) -> HttpResponse
    var calls: seq<DetailsRequest>

    constructor (respond: (DetailsRequest, nat) -> HttpResponse)
      ensures this.respond == respond && calls == []
    {
      this.respond := respond;
      calls := [];
    }

    /** One POST: logged, and answered by `respond`. */
    method Post(req: DetailsRequest) returns (resp: HttpResponse)
      modifies this
      ensures calls == old(calls) + [req]
      ensures resp == respond(req, |old(calls)|)
    {
      resp := respond(req, |calls|);
      calls := calls + [req];
    }
  }

  // ---------------------------------------------------------------------------
  // Processing an answer
  // ---------------------------------------------------------------------------

  /** What sqlite3 can bind: not a list or a dict, and an integer within
      64 bits. */
  predicate Bindable(v: Json) {
    match v
    case JArray(_) => false
    case JObject(_) => false
    case JInt(n) => -0x8000_0000_0000_0000 <= n < 0x8000_0000_0000_0000
    case _ => true
  }

  /** `raise_for_status`: 4xx and 5xx codes raise. */
  predicate IsErrorStatus(status: int) {
    400 <= status < 600
  }

  /** From the upstream answer to the row to cache, or the error the
      endpoint reports: request failures, error statuses and undecodable
      bodies are `FetchFailed`; a body that is not an object, a truthy
      non-string `meeting_html` or a value sqlite3 cannot bind is
      `ProcessingFailed`. Missing fields read as "" (`allInGroup` as []).
      A row that is produced carries the parse of its own `meeting_html`. */
  function Fetched(resp: HttpResponse, now: string): (r: Result<CacheEntry, DetailsError>)
    ensures resp.TransportFailure? ==> r == Failure(FetchFailed)
    ensures resp.Reply? && IsErrorStatus(resp.status) ==> r == Failure(FetchFailed)
    ensures resp.Reply? && resp.body.None? ==> r == Failure(FetchFailed)
    ensures r == Failure(FetchFailed) <==> resp.TransportFailure? || IsErrorStatus(resp.status) || resp.body.None?
    ensures r.Success? ==> MeetingConsistent(r.value) && r.value.cachedAt == now
    ensures r.Success? ==> resp.body.value.JObject? && r.value.raw == resp.body.value
  {
    if resp.TransportFailure? || IsErrorStatus(resp.status) || resp.body.None? then Failure(FetchFailed)
    else
      var result := resp.body.value;
      if !result.JObject? then Failure(ProcessingFailed)
      else
        var o := result.fields;
        var meetingHtml := GetOr(o, "meeting_html", JStr(""));
        match MeetingOf(meetingHtml)
        case None => Failure(ProcessingFailed)
        case Some((pattern, start, end)) =>
          var e := CacheEntry(
            GetOr(o, "description", JStr("")), GetOr(o, "clssnotes", JStr("")),
            GetOr(o, "hours_html", JStr("")), GetOr(o, "status", JStr("")),
            GetOr(o, "component", JStr("")), GetOr(o, "instructional_method", JStr("")),
            GetOr(o, "campus_location", JStr("")), GetOr(o, "registration_restrictions", JStr("")),
            meetingHtml, pattern, start, end,
            GetOr(o, "dates_html", JStr("")), GetOr(o, "allInGroup", JArray([])), result, now);
          if AllBindable(e) then Success(e) else Failure(ProcessingFailed)
  }

  /** Every value bound to a column of the INSERT OR REPLACE can be bound. */
  predicate AllBindable(e: CacheEntry) {
    && Bindable(e.description) && Bindable(e.clssnotes) && Bindable(e.hoursHtml)
    && Bindable(e.status) && Bindable(e.component) && Bindable(e.instructionalMethod)
    && Bindable(e.campusLocation) && Bindable(e.registrationRestrictions)
    && Bindable(e.meetingHtml) && Bindable(e.datesHtml)
  }

  /** The answer on a miss: the fields as fetched. */
  function FreshView(e: CacheEntry): CourseDetails {
    CourseDetails(
      e.description, e.clssnotes, e.hoursHtml, e.status, e.component,
      e.instructionalMethod, e.campusLocation, e.registrationRestrictions,
      e.meetingHtml, e.meetPattern, e.meetStartDate, e.meetEndDate,
      e.datesHtml, e.allSections, e.raw)
  }

  /** A value read back from a TEXT column: SQLite stores an integer (a
      Python bool is one) as its decimal text. */
  function ReadBack(v: Json): (r: Json)
    ensures !v.JInt? && !v.JBool? ==> r == v
    ensures r.JInt? || r.JBool? ==> false
    ensures v.JInt? ==> r == JStr(IntToDecimal(v.i))
    ensures v.JBool? ==> r == JStr(if v.b then "1" else "0")
  {
    match v
    case JInt(n) => JStr(IntToDecimal(n))
    case JBool(b) => JStr(if b then "1" else "0")
    case _ => v
  }

  /** The answer on a hit: the stored columns read back, and the two JSON
      texts decoded to the values they were made from. */
  function CachedView(e: CacheEntry): CourseDetails {
    CourseDetails(
      ReadBack(e.description), ReadBack(e.clssnotes), ReadBack(e.hoursHtml), ReadBack(e.status),
      ReadBack(e.component), ReadBack(e.instructionalMethod), ReadBack(e.campusLocation),
      ReadBack(e.registrationRestrictions), ReadBack(e.meetingHtml),
      e.meetPattern, e.meetStartDate, e.meetEndDate,
      ReadBack(e.datesHtml), e.allSections, e.raw)
  }

  /** A value that reads back unchanged: neither an integer nor a bool. */
  predicate TextColumnSafe(v: Json) {
    !v.JInt? && !v.JBool?
  }

  /** A hit answers exactly what the miss that stored the entry answered if
      and only if no stored field was an integer or a bool. */
  lemma HitMatchesMiss(e: CacheEntry)
    ensures CachedView(e) == FreshView(e) <==>
      && TextColumnSafe(e.description) && TextColumnSafe(e.clssnotes) && TextColumnSafe(e.hoursHtml)
      && TextColumnSafe(e.status) && TextColumnSafe(e.component) && TextColumnSafe(e.instructionalMethod)
      && TextColumnSafe(e.campusLocation) && TextColumnSafe(e.registrationRestrictions)
      && TextColumnSafe(e.meetingHtml) && TextColumnSafe(e.datesHtml)
  {
  }

  // ---------------------------------------------------------------------------
  // get_course_details
  // ---------------------------------------------------------------------------

  /** `get_course_details`. A hit returns the stored entry, makes no call
      and writes nothing. A miss makes exactly one call; when the answer
      processes, the entry for the triple is written (replacing any other
      under that triple) and its fields returned; otherwise the cache is
      left as it was and the error returned. */
  method GetCourseDetails(db: Database, upstream: Upstream, req: DetailsRequest, now: string)
    returns (r: Result<CourseDetails, DetailsError>)
    requires db.Valid()
    modifies db, upstream
    ensures db.Valid()
    ensures db.courses == old(db.courses) && db.sections == old(db.sections) && db.metadata == old(db.metadata)
    ensures KeyOf(req) in old(db.detailsCache) ==>
      && r == Success(CachedView(old(db.detailsCache)[KeyOf(req)]))
      && upstream.calls == old(upstream.calls)
      && db.detailsCache == old(db.detailsCache)
    ensures KeyOf(req) !in old(db.detailsCache) ==>
      && upstream.calls == old(upstream.calls) + [req]
      && match Fetched(upstream.respond(req, |old(upstream.calls)|), now)
         case Success(e) => db.detailsCache == old(db.detailsCache)[KeyOf(req) := e] && r == Success(FreshView(e))
         case Failure(err) => db.detailsCache == old(db.detailsCache) && r == Failure(err)
  {
    var cached := db.CachedEntry(KeyOf(req));
    if cached.Some? {
      return Success(CachedView(cached.value));
    }
    var resp := upstream.Post(req);
    var fetched := Fetched(resp, now);
    match fetched
    case Failure(err) =>
      r := Failure(err);
    case Success(e) =>
      db.ReplaceDetails(KeyOf(req), e);
      r := Success(FreshView(e));
  }

  /** Two lookups of the same triple. A triple already cached costs no call
      at all; after a successful first lookup of a new triple the second is
      a hit: no further call, the cache unchanged by it, and the
      stored entry's fields returned, which are the first answer's whenever
      no field was an integer or a bool. */
  method LookupTwice(db: Database, upstream: Upstream, req: DetailsRequest, now1: string, now2: string)
    returns (r1: Result<CourseDetails, DetailsError>, r2: Result<CourseDetails, DetailsError>)
    requires db.Valid()
    modifies db, upstream
    ensures db.Valid()
    ensures |upstream.calls| <= |old(upstream.calls)| + 2
    ensures KeyOf(req) in old(db.detailsCache) ==> upstream.calls == old(upstream.calls)
    ensures KeyOf(req) !in old(db.detailsCache) && r1.Success? ==> upstream.calls == old(upstream.calls) + [req]
    ensures r1.Success? ==>
      && KeyOf(req) in db.detailsCache
      && r2 == Success(CachedView(db.detailsCache[KeyOf(req)]))
      && |upstream.calls| <= |old(upstream.calls)| + 1
      && (r1.value == FreshView(db.detailsCache[KeyOf(req)]) || r1 == r2)
  {
    r1 := GetCourseDetails(db, upstream, req, now1);
    r2 := GetCourseDetails(db, upstream, req, now2);
  }
}
