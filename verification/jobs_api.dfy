/**
 * The job listing and manual-create endpoints (src/app/api/jobs/route.ts). `GET` turns
 * query parameters into a where clause, an order and a page window; `POST` validates a
 * body and inserts it unless its url is already stored. Both need a session token,
 * which `verifyAuth` (an oracle here) must accept.
 */
module JobsApi {
  import opened Wrappers
  import opened Strings
  import opened Store

  const DefaultPage: int := 1
  const DefaultLimit: int := 20
  const TrueText: string := "true"
  const ManualSource: string := "manual"

  /**
   * The query string, parameter by parameter: `None` when the parameter is missing.
   * `dateFrom` and `dateTo` arrive parsed (`new Date(..)`), and are `None` when missing or
   * empty; `page` and `limit` arrive parsed by `parseInt`, and are `None` when missing or
   * empty, so that the `|| '1'` / `|| '20'` defaults apply.
   */
  datatype JobsQuery = JobsQuery(
    search: Option<string>,
    location: Option<string>,
    applied: Option<string>,
    emailed: Option<string>,
    dateFrom: Option<Instant>,
    dateTo: Option<Instant>,
    page: Option<int>,
    limit: Option<int>,
    appliedOnly: Option<string>)

  /**
   * What the parameters mean, stated directly: a job is listed when its title or company
   * contains the search term and its location contains the location term (both ignoring
   * case), its flags agree with `applied` (overridden to true by `appliedOnly=true`) and
   * `emailed`, and it was posted between the start of `dateFrom` and the end of the day
   * `dateTo`.
   */
  predicate Accepts(q: JobsQuery, j: Job) {
    && (Truthy(q.search) ==>
          ContainsInsensitive(j.title, q.search.value) || ContainsInsensitive(j.company, q.search.value))
    && (Truthy(q.location) ==> ContainsInsensitive(j.location, q.location.value))
    && (q.appliedOnly == Some(TrueText) ==> j.applied)
    && (q.appliedOnly != Some(TrueText) && q.applied.Some? ==> j.applied == (q.applied.value == TrueText))
    && (q.emailed.Some? ==> j.emailed == (q.emailed.value == TrueText))
    && (q.dateFrom.Some? ==> q.dateFrom.value <= j.postedAt)
    && (q.dateTo.Some? ==> j.postedAt < q.dateTo.value + DayMs)
  }

  /**
   * The where clause, built field by field as the handler does: the lower-cased search
   * term, the location, `applied` then its `appliedOnly` override, `emailed`, and the
   * `gte`/`lt` bounds, the upper one a day after `dateTo`.
   */
  method BuildWhere(q: JobsQuery) returns (w: JobFilter)
    ensures forall j :: Matches(w, j) <==> Accepts(q, j)
  {
    w := Everything;
    var search := if q.search.Some? then Some(Lower(q.search.value)) else None;
    if Truthy(search) {
      w := w.(search := search);
    }
    if Truthy(q.location) {
      w := w.(location := q.location);
    }
    if q.applied.Some? {
      w := w.(applied := Some(q.applied.value == TrueText));
    }
    if q.appliedOnly == Some(TrueText) {
      w := w.(applied := Some(true));
    }
    if q.emailed.Some? {
      w := w.(emailed := Some(q.emailed.value == TrueText));
    }
    if q.dateFrom.Some? || q.dateTo.Some? {
      if q.dateFrom.Some? {
        w := w.(postedFrom := q.dateFrom);
      }
      if q.dateTo.Some? {
        w := w.(postedBefore := Some(q.dateTo.value + DayMs));
      }
    }
    if q.search.Some? {
      LowerEmpty(q.search.value);
    }
    WhereMeansAccepts(q, w);
  }

  /** The clause the handler ends up with, field by field, selects exactly what `Accepts` describes. */
  lemma WhereMeansAccepts(q: JobsQuery, w: JobFilter)
    requires w.search == (if Truthy(q.search) then Some(Lower(q.search.value)) else None)
    requires w.location == (if Truthy(q.location) then q.location else None)
    requires w.applied == (if q.appliedOnly == Some(TrueText) then Some(true)
                           else if q.applied.Some? then Some(q.applied.value == TrueText) else None)
    requires w.emailed == (if q.emailed.Some? then Some(q.emailed.value == TrueText) else None)
    requires w.postedFrom == q.dateFrom
    requires w.postedBefore == (if q.dateTo.Some? then Some(q.dateTo.value + DayMs) else None)
    ensures forall j :: Matches(w, j) <==> Accepts(q, j)
  {
    if Truthy(q.search) {
      LowerIdempotent(q.search.value);
    }
  }

  /** With `dateFrom` and `dateTo` on the same day, exactly the jobs posted during that day pass the date bounds. */
  lemma SingleDayRange(q: JobsQuery, j: Job, day: Instant)
    requires q.dateFrom == Some(day) && q.dateTo == Some(day)
    requires !Truthy(q.search) && !Truthy(q.location) && q.applied.None? && q.appliedOnly.None? && q.emailed.None?
    ensures Accepts(q, j) <==> day <= j.postedAt < day + DayMs
  {
  }

  /**
   * `findMany` with `skip` and `take`: Prisma rejects a negative skip; a non-negative
   * `take` keeps up to that many rows after the skipped ones; a negative `take` counts
   * from the end of the order, skipping `skip` rows there first.
   */
  function Window(rows: seq<Job>, skip: nat, take: int): (r: seq<Job>)
    ensures take >= 0 ==> |r| == (if skip >= |rows| then 0 else if |rows| - skip < take then |rows| - skip else take)
    ensures take >= 0 ==> forall i :: 0 <= i < |r| ==> skip + i < |rows| && r[i] == rows[skip + i]
    ensures take < 0 ==> |r| <= -take && forall x :: x in r ==> x in rows
  {
    if take >= 0 then
      var start := if skip < |rows| then skip else |rows|;
      var end := if |rows| - start < take then |rows| else start + take;
      rows[start..end]
    else
      var end := if skip < |rows| then |rows| - skip else 0;
      var start := if end < -take then 0 else end + take;
      rows[start..end]
  }

  /**
   * `Math.ceil(total / limit)`, or `None` for a limit of zero (JavaScript's `Infinity` or
   * `NaN`, which the JSON reply writes as `null`).
   */
  function TotalPages(total: nat, limit: int): (r: Option<int>)
    ensures r.None? <==> limit == 0
    ensures limit > 0 ==> r.value >= 0 && (r.value - 1) * limit < total <= r.value * limit
    ensures limit < 0 ==> r.value <= 0 && r.value * limit <= total < (r.value - 1) * limit
  {
    if limit > 0 then Some((total + limit - 1) / limit)
    else if limit == 0 then None
    else Some(-(total / -limit))
  }

  /** The pages 1 .. n of a listing, one after another. */
  function Pages(rows: seq<Job>, limit: nat, n: nat): seq<Job>
    requires limit > 0
  {
    if n == 0 then [] else Pages(rows, limit, n - 1) + Window(rows, (n - 1) * limit, limit)
  }

  lemma MulMonotone(a: int, b: int, c: nat)
    requires a <= b
    ensures a * c <= b * c
  {
    var d := b - a;
    assert b * c == a * c + d * c;
  }

  /** The first k rows of a listing, or all of them when there are fewer. */
  function Prefix(rows: seq<Job>, k: nat): seq<Job> {
    if |rows| < k then rows else rows[..k]
  }

  /** The page at `skip = m` continues the first m rows. */
  lemma PageStep(rows: seq<Job>, m: nat, limit: nat)
    ensures Prefix(rows, m) + Window(rows, m, limit) == Prefix(rows, m + limit)
  {
    var page := Window(rows, m, limit);
    if |rows| <= m {
      assert page == [];
    } else if |rows| < m + limit {
      assert page == rows[m..];
      assert rows[..m] + rows[m..] == rows;
    } else {
      assert page == rows[m..m + limit];
      assert rows[..m] + rows[m..m + limit] == rows[..m + limit];
    }
  }

  /** The first n pages are exactly the first n * limit rows. */
  lemma {:induction false} PagesArePrefix(rows: seq<Job>, limit: nat, n: nat)
    requires limit > 0
    ensures Pages(rows, limit, n) == Prefix(rows, n * limit)
  {
    if n > 0 {
      PagesArePrefix(rows, limit, n - 1);
      var m := (n - 1) * limit;
      assert n * limit == m + limit;
      PageStep(rows, m, limit);
    }
  }

  /** Walking every page from 1 to `totalPages` visits each listed job once, in order. */
  lemma PagesCoverListing(rows: seq<Job>, limit: nat)
    requires limit > 0
    ensures Pages(rows, limit, TotalPages(|rows|, limit).value) == rows
  {
    var n := TotalPages(|rows|, limit).value;
    PagesArePrefix(rows, limit, n);
    assert |rows| <= n * limit;
  }

  /** A page beyond `totalPages` is empty; a page from 1 to `totalPages` is not. */
  lemma PageBeyondLastIsEmpty(rows: seq<Job>, limit: nat, page: int)
    requires limit > 0 && page >= 1
    ensures |Window(rows, (page - 1) * limit, limit)| == 0 <==> page > TotalPages(|rows|, limit).value
  {
    var n := TotalPages(|rows|, limit).value;
    var skip := (page - 1) * limit;
    if page > n {
      MulMonotone(n, page - 1, limit);
      assert skip >= |rows|;
    } else {
      MulMonotone(page - 1, n - 1, limit);
      assert skip < |rows|;
    }
  }

  /** The GET replies. `Listing.totalPages` is `None` where the JSON reply holds `null`. */
  datatype JobsReply =
    | AuthenticationRequired
    | InvalidToken
    | FetchFailed
    | Listing(jobs: seq<Job>, total: nat, page: int, totalPages: Option<int>)

  function ReplyStatus(reply: JobsReply): nat {
    match reply
    case AuthenticationRequired => 401
    case InvalidToken => 401
    case FetchFailed => 500
    case Listing(_, _, _, _) => 200
  }

  /**
   * `GET`. `token` is the cookie, `tokenVerifies` the outcome of `verifyAuth`. `w` is the
   * where clause built and `ordered` every matching row in the listing order; the page
   * is the window of `ordered` at `skip = (page - 1) * limit`.
   */
  method JobsGet(db: Database, token: Option<string>, tokenVerifies: bool, q: JobsQuery)
    returns (reply: JobsReply, w: JobFilter, ordered: seq<Job>)
    requires db.Valid()
    ensures !Truthy(token) ==> reply == AuthenticationRequired
    ensures Truthy(token) && !tokenVerifies ==> reply == InvalidToken
    ensures Truthy(token) && tokenVerifies ==>
      && (forall j :: Matches(w, j) <==> Accepts(q, j))
      && IsListing(ordered, db.jobs, w)
      && var page := q.page.GetOr(DefaultPage);
         var limit := q.limit.GetOr(DefaultLimit);
         var skip := (page - 1) * limit;
         && (skip < 0 ==> reply == FetchFailed)
         && (skip >= 0 ==>
               reply == Listing(Window(ordered, skip, limit), |MatchingIds(db.jobs, w)|, page,
                                TotalPages(|MatchingIds(db.jobs, w)|, limit)))
  {
    w := Everything;
    ordered := [];
    if !Truthy(token) {
      return AuthenticationRequired, w, ordered;
    }
    if !tokenVerifies {
      return InvalidToken, w, ordered;
    }
    var page := q.page.GetOr(DefaultPage);
    var limit := q.limit.GetOr(DefaultLimit);
    w := BuildWhere(q);
    var skip := (page - 1) * limit;
    ordered := db.FindMany(w);
    if skip < 0 {
      return FetchFailed, w, ordered;
    }
    var total := db.Count(w);
    reply := Listing(Window(ordered, skip, limit), total, page, TotalPages(total, limit));
  }

  /** The reply's `total` is also the number of listed rows, so the pages of a positive limit cover it. */
  lemma TotalCountsListing(ordered: seq<Job>, jobs: map<JobId, Job>, w: JobFilter, limit: nat)
    requires IsListing(ordered, jobs, w) && limit > 0
    ensures Pages(ordered, limit, TotalPages(|MatchingIds(jobs, w)|, limit).value) == ordered
  {
    SelectionSize(ordered, jobs, w);
    PagesCoverListing(ordered, limit);
  }

  /** The POST body's fields, `None` when missing. */
  datatype JobBody = JobBody(title: Option<string>, company: Option<string>, location: Option<string>,
                             url: Option<string>, source: Option<string>)

  datatype CreateReply =
    | CreateAuthenticationRequired
    | CreateInvalidToken
    | MissingFields
    | DuplicateUrl
    | Created(job: Job)

  function CreateStatus(reply: CreateReply): nat {
    match reply
    case CreateAuthenticationRequired => 401
    case CreateInvalidToken => 401
    case MissingFields => 400
    case DuplicateUrl => 409
    case Created(_) => 201
  }

  /** The four required fields are present and non-empty. */
  predicate Complete(body: JobBody) {
    Truthy(body.title) && Truthy(body.company) && Truthy(body.location) && Truthy(body.url)
  }

  /**
   * The row data a complete body creates: posted now, `source` defaulting to "manual".
   * `create` passes no `applied` or `emailed`; the database schema is not part of this
   * model, and both are assumed to default to false (and `createdAt` to the time of the call).
   */
  function ManualJobData(body: JobBody, now: Instant): JobData
    requires Complete(body)
  {
    JobData(body.title.value, body.company.value, body.location.value, now, body.url.value,
            body.source.GetOr(ManualSource), false, false)
  }

  /** `POST`: the token check, the required fields, the duplicate-url 409, then one insert. */
  method JobsPost(db: Database, token: Option<string>, tokenVerifies: bool, body: JobBody, now: Instant)
    returns (reply: CreateReply)
    requires db.Valid()
    modifies db
    ensures db.Valid() && db.users == old(db.users)
    ensures !Truthy(token) ==> reply == CreateAuthenticationRequired
    ensures Truthy(token) && !tokenVerifies ==> reply == CreateInvalidToken
    ensures Truthy(token) && tokenVerifies && !Complete(body) ==> reply == MissingFields
    ensures Truthy(token) && tokenVerifies && Complete(body) && HasUrl(old(db.jobs), body.url.value) ==>
      reply == DuplicateUrl
    ensures !reply.Created? ==> db.jobs == old(db.jobs) && db.nextId == old(db.nextId)
    ensures Truthy(token) && tokenVerifies && Complete(body) && !HasUrl(old(db.jobs), body.url.value) ==>
      && reply == Created(NewRow(old(db.nextId), ManualJobData(body, now), now))
      && db.jobs == Inserted(old(db.jobs), old(db.nextId), ManualJobData(body, now), now)
      && db.nextId == old(db.nextId) + 1
  {
    if !Truthy(token) {
      return CreateAuthenticationRequired;
    }
    if !tokenVerifies {
      return CreateInvalidToken;
    }
    if !Complete(body) {
      return MissingFields;
    }
    var existing := db.FindUniqueByUrl(body.url.value);
    if existing.Some? {
      return DuplicateUrl;
    }
    var created := db.Create(ManualJobData(body, now), now);
    reply := Created(created.value);
  }

  /** A manual insert adds exactly one row, under a fresh id, with the body's url, and keeps urls unique. */
  lemma ManualInsertFacts(jobs: map<JobId, Job>, nextId: nat, body: JobBody, now: Instant)
    requires StoreInvariant(jobs, nextId) && Complete(body) && !HasUrl(jobs, body.url.value)
    ensures var after := Inserted(jobs, nextId, ManualJobData(body, now), now);
      && StoreInvariant(after, nextId + 1)
      && after.Keys == jobs.Keys + {nextId} && nextId !in jobs
      && after[nextId].url == body.url.value && !after[nextId].applied && !after[nextId].emailed
      && (body.source.None? ==> after[nextId].source == ManualSource)
      && (forall k :: k in jobs ==> after[k] == jobs[k])
  {
    InsertKeepsInvariant(jobs, nextId, ManualJobData(body, now), now);
  }
}
