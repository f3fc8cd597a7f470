/**
 * The relational store behind Prisma, as the application uses it: a `Job` table
 * keyed by a store-generated id whose `url` column is unique, and a `User` table.
 * Rows are values; the store itself is the one object that every route updates in
 * place, so it is a class whose methods are the Prisma calls the routes make
 * (`findUnique` by url, `create`, `updateMany` of the emailed flag, and `findMany`
 * with a where clause and newest-first ordering).
 */
module Store {
  import opened Wrappers
  import opened Strings

  /** Job ids are handed out by the store; a counter stands for its id generator. */
  type JobId = nat

  /** A JavaScript `Date`: milliseconds since the epoch. */
  type Instant = int

  const HourMs: int := 60 * 60 * 1000
  const DayMs: int := 24 * HourMs

  /** One row of the Job table. */
  datatype Job = Job(
    id: JobId,
    title: string,
    company: string,
    location: string,
    postedAt: Instant,
    url: string,
    source: string,
    applied: bool,
    emailed: bool,
    createdAt: Instant)

  /** The `data` argument of `prisma.job.create`: every column except the store's own `id` and `createdAt`. */
  datatype JobData = JobData(
    title: string,
    company: string,
    location: string,
    postedAt: Instant,
    url: string,
    source: string,
    applied: bool,
    emailed: bool)

  /** The user columns the pipeline selects (`id`, `name`, `email`). */
  datatype User = User(id: string, name: string, email: string)

  /** The row `create` stores: the given data, the next id, and `createdAt` defaulting to the time of the call. */
  function NewRow(id: JobId, data: JobData, now: Instant): Job {
    Job(id, data.title, data.company, data.location, data.postedAt, data.url, data.source,
        data.applied, data.emailed, now)
  }

  /** The unique constraint on `url`: no two rows share a url. */
  predicate UrlsUnique(jobs: map<JobId, Job>) {
    forall a, b :: a in jobs && b in jobs && jobs[a].url == jobs[b].url ==> a == b
  }

  /** Every row is stored under its own id, and every id is below the next one to be handed out. */
  predicate IdsConsistent(jobs: map<JobId, Job>, nextId: nat) {
    forall k :: k in jobs ==> jobs[k].id == k && k < nextId
  }

  predicate StoreInvariant(jobs: map<JobId, Job>, nextId: nat) {
    UrlsUnique(jobs) && IdsConsistent(jobs, nextId)
  }

  /** `findUnique({ where: { url } })` finds a row. */
  predicate HasUrl(jobs: map<JobId, Job>, url: string) {
    exists k :: k in jobs && jobs[k].url == url
  }

  /** The table after `create(data)` succeeded. */
  function Inserted(jobs: map<JobId, Job>, nextId: nat, data: JobData, now: Instant): map<JobId, Job> {
    jobs[nextId := NewRow(nextId, data, now)]
  }

  /** Inserting a row whose url is new keeps the unique constraint and the id discipline. */
  lemma InsertKeepsInvariant(jobs: map<JobId, Job>, nextId: nat, data: JobData, now: Instant)
    requires StoreInvariant(jobs, nextId)
    requires !HasUrl(jobs, data.url)
    ensures StoreInvariant(Inserted(jobs, nextId, data, now), nextId + 1)
    ensures forall u :: HasUrl(Inserted(jobs, nextId, data, now), u) <==> HasUrl(jobs, u) || u == data.url
  {
    var r := Inserted(jobs, nextId, data, now);
    assert nextId !in jobs;
    forall u | HasUrl(r, u) ensures HasUrl(jobs, u) || u == data.url {
      var k :| k in r && r[k].url == u;
      if k != nextId { assert jobs[k].url == u; }
    }
    forall u | HasUrl(jobs, u) || u == data.url ensures HasUrl(r, u) {
      if u == data.url {
        assert r[nextId].url == u;
      } else {
        var k :| k in jobs && jobs[k].url == u;
        assert r[k].url == u;
      }
    }
  }

  /**
   * The table after `updateMany({ where: { id: { in: ids } }, data: { emailed: true } })`:
   * the same rows, the listed ones flagged as emailed, nothing else touched.
   */
  function MarkedEmailed(jobs: map<JobId, Job>, ids: set<JobId>): (r: map<JobId, Job>)
    ensures r.Keys == jobs.Keys
    ensures forall k :: k in r ==> r[k].emailed == (jobs[k].emailed || k in ids)
    ensures forall k :: k in r ==> r[k].(emailed := jobs[k].emailed) == jobs[k]
  {
    map k | k in jobs :: if k in ids then jobs[k].(emailed := true) else jobs[k]
  }

  lemma MarkingKeepsInvariant(jobs: map<JobId, Job>, nextId: nat, ids: set<JobId>)
    requires StoreInvariant(jobs, nextId)
    ensures StoreInvariant(MarkedEmailed(jobs, ids), nextId)
  {
    var r := MarkedEmailed(jobs, ids);
    forall a, b | a in r && b in r && r[a].url == r[b].url ensures a == b {
      assert r[a].url == jobs[a].url && r[b].url == jobs[b].url;
    }
  }

  /**
   * A Prisma `where` clause over the Job table, as the routes build it. An absent
   * field does not constrain; `contains` with `mode: 'insensitive'` compares lower-cased text.
   */
  datatype JobFilter = JobFilter(
    search: Option<string>,         // OR of title / company contains, case-insensitive
    location: Option<string>,       // location contains, case-insensitive
    applied: Option<bool>,
    emailed: Option<bool>,
    postedFrom: Option<Instant>,    // postedAt >= (gte)
    postedBefore: Option<Instant>)  // postedAt < (lt)

  const Everything: JobFilter := JobFilter(None, None, None, None, None, None)

  /** `{ emailed: false }`, the filter of every dispatcher. */
  const NotEmailed: JobFilter := Everything.(emailed := Some(false))

  predicate ContainsInsensitive(field: string, term: string) {
    Contains(Lower(field), Lower(term))
  }

  predicate Matches(w: JobFilter, j: Job) {
    && (w.search.Some? ==>
          ContainsInsensitive(j.title, w.search.value) || ContainsInsensitive(j.company, w.search.value))
    && (w.location.Some? ==> ContainsInsensitive(j.location, w.location.value))
    && (w.applied.Some? ==> j.applied == w.applied.value)
    && (w.emailed.Some? ==> j.emailed == w.emailed.value)
    && (w.postedFrom.Some? ==> j.postedAt >= w.postedFrom.value)
    && (w.postedBefore.Some? ==> j.postedAt < w.postedBefore.value)
  }

  /** The ids of the rows a where clause selects; `count({ where })` is its size. */
  function MatchingIds(jobs: map<JobId, Job>, w: JobFilter): set<JobId> {
    set k | k in jobs && Matches(w, jobs[k])
  }

  lemma MatchingSubset(jobs: map<JobId, Job>, w: JobFilter)
    ensures |MatchingIds(jobs, w)| <= |jobs|
  {
    var m := MatchingIds(jobs, w);
    assert jobs.Keys == m + (jobs.Keys - m);
  }

  /** `orderBy: [{ postedAt: 'desc' }, { createdAt: 'desc' }]` allows `a` before `b`. */
  predicate ListedBefore(a: Job, b: Job) {
    a.postedAt > b.postedAt || (a.postedAt == b.postedAt && a.createdAt >= b.createdAt)
  }

  predicate NewestFirst(rows: seq<Job>) {
    forall i, j :: 0 <= i < j < |rows| ==> ListedBefore(rows[i], rows[j])
  }

  predicate DistinctIds(rows: seq<Job>) {
    forall i, j :: 0 <= i < j < |rows| ==> rows[i].id != rows[j].id
  }

  function IdsOf(rows: seq<Job>): set<JobId> {
    set r | r in rows :: r.id
  }

  /** Every row returned is the stored row with that id. */
  predicate RowsOf(rows: seq<Job>, jobs: map<JobId, Job>) {
    forall r :: r in rows ==> r.id in jobs && jobs[r.id] == r
  }

  /** `rows` is what `findMany({ where: w })` returns: each matching row exactly once, in some order. */
  predicate IsSelection(rows: seq<Job>, jobs: map<JobId, Job>, w: JobFilter) {
    DistinctIds(rows) && RowsOf(rows, jobs) && IdsOf(rows) == MatchingIds(jobs, w)
  }

  /** ... and with `orderBy` postedAt then createdAt, both descending. */
  predicate IsListing(rows: seq<Job>, jobs: map<JobId, Job>, w: JobFilter) {
    IsSelection(rows, jobs, w) && NewestFirst(rows)
  }

  /** `orderBy: { postedAt: 'desc' }` alone: ties in any order. */
  predicate PostedNewestFirst(rows: seq<Job>) {
    forall i, j :: 0 <= i < j < |rows| ==> rows[i].postedAt >= rows[j].postedAt
  }

  /** The two-key order refines the one-key order. */
  lemma ListingIsPostedNewestFirst(rows: seq<Job>)
    requires NewestFirst(rows)
    ensures PostedNewestFirst(rows)
  {
  }

  /**
   * `findMany({ where: w, orderBy: { postedAt: 'desc' }, take: n })`: at most n matching rows,
   * each once, newest posted first, and no matching row left out was posted later than one taken.
   */
  predicate IsTopPosted(rows: seq<Job>, jobs: map<JobId, Job>, w: JobFilter, n: nat) {
    && DistinctIds(rows) && RowsOf(rows, jobs) && IdsOf(rows) <= MatchingIds(jobs, w)
    && PostedNewestFirst(rows)
    && |rows| == (if |MatchingIds(jobs, w)| < n then |MatchingIds(jobs, w)| else n)
    && forall k, i :: k in MatchingIds(jobs, w) - IdsOf(rows) && 0 <= i < |rows| ==>
         jobs[k].postedAt <= rows[i].postedAt
  }

  /** Taking the first n rows of a listing selects the n most recently posted matching rows. */
  lemma ListingPrefixIsTop(rows: seq<Job>, jobs: map<JobId, Job>, w: JobFilter, n: nat)
    requires IsListing(rows, jobs, w)
    ensures var top := if |rows| < n then rows else rows[..n];
      IsTopPosted(top, jobs, w, n)
  {
    SelectionSize(rows, jobs, w);
    var top := if |rows| < n then rows else rows[..n];
    assert forall r :: r in top ==> r in rows;
    assert IdsOf(top) <= IdsOf(rows);
    PrefixLeavesOlder(rows, jobs, w, n);
  }

  /** A matching row left out of a listing's prefix was posted no later than any row taken. */
  lemma PrefixLeavesOlder(rows: seq<Job>, jobs: map<JobId, Job>, w: JobFilter, n: nat)
    requires IsListing(rows, jobs, w)
    ensures var top := if |rows| < n then rows else rows[..n];
      forall k, i :: k in MatchingIds(jobs, w) - IdsOf(top) && 0 <= i < |top| ==>
        jobs[k].postedAt <= top[i].postedAt
  {
    var top := if |rows| < n then rows else rows[..n];
    forall k, i | k in MatchingIds(jobs, w) - IdsOf(top) && 0 <= i < |top|
      ensures jobs[k].postedAt <= top[i].postedAt
    {
      assert k in IdsOf(rows);
      var r :| r in rows && r.id == k;
      var j :| 0 <= j < |rows| && rows[j] == r;
      assert rows[i] == top[i];
    }
  }

  /** A selection has exactly `count({ where })` rows. */
  lemma {:induction false} SelectionSize(rows: seq<Job>, jobs: map<JobId, Job>, w: JobFilter)
    requires IsSelection(rows, jobs, w)
    ensures |rows| == |MatchingIds(jobs, w)|
  {
    DistinctIdsCount(rows);
  }

  lemma {:induction false} DistinctIdsCount(rows: seq<Job>)
    requires DistinctIds(rows)
    ensures |IdsOf(rows)| == |rows|
  {
    if rows != [] {
      var n := |rows| - 1;
      var front := rows[..n];
      assert DistinctIds(front);
      DistinctIdsCount(front);
      assert rows == front + [rows[n]];
      assert IdsOf(rows) == IdsOf(front) + {rows[n].id};
      forall r | r in front ensures r.id != rows[n].id {
        var i :| 0 <= i < n && front[i] == r;
      }
      assert rows[n].id !in IdsOf(front);
    }
  }

  /** Where a row goes in a newest-first list: after every row it may not precede. */
  function InsertionPoint(rows: seq<Job>, j: Job): (p: nat)
    ensures p <= |rows|
    ensures forall i :: 0 <= i < p ==> !ListedBefore(j, rows[i])
    ensures p < |rows| ==> ListedBefore(j, rows[p])
  {
    if rows == [] || ListedBefore(j, rows[0]) then 0 else 1 + InsertionPoint(rows[1..], j)
  }

  function InsertNewestFirst(rows: seq<Job>, j: Job): seq<Job> {
    var p := InsertionPoint(rows, j);
    rows[..p] + [j] + rows[p..]
  }

  /** Inserting a row with a new id into a newest-first list keeps it newest-first and duplicate-free. */
  lemma InsertNewestFirstFacts(rows: seq<Job>, j: Job)
    requires NewestFirst(rows) && DistinctIds(rows) && j.id !in IdsOf(rows)
    ensures NewestFirst(InsertNewestFirst(rows, j))
    ensures DistinctIds(InsertNewestFirst(rows, j))
    ensures forall x :: x in InsertNewestFirst(rows, j) <==> x in rows || x == j
    ensures IdsOf(InsertNewestFirst(rows, j)) == IdsOf(rows) + {j.id}
  {
    InsertKeepsOrder(rows, j);
    InsertKeepsDistinct(rows, j);
    InsertContents(rows, j);
  }

  /** Where each row of the list lands after the insertion. */
  lemma InsertShape(rows: seq<Job>, j: Job)
    ensures var p := InsertionPoint(rows, j);
      var r := InsertNewestFirst(rows, j);
      && |r| == |rows| + 1 && r[p] == j
      && (forall i :: 0 <= i < p ==> r[i] == rows[i])
      && (forall i :: p < i < |r| ==> r[i] == rows[i - 1])
  {
  }

  lemma InsertKeepsOrder(rows: seq<Job>, j: Job)
    requires NewestFirst(rows)
    ensures NewestFirst(InsertNewestFirst(rows, j))
  {
    var p := InsertionPoint(rows, j);
    var r := InsertNewestFirst(rows, j);
    InsertShape(rows, j);
    forall a, b | 0 <= a < b < |r| ensures ListedBefore(r[a], r[b]) {
      if b == p {
        assert !ListedBefore(j, rows[a]);
      } else if a == p && b - 1 > p {
        assert ListedBefore(rows[p], rows[b - 1]);
      }
    }
  }

  lemma InsertKeepsDistinct(rows: seq<Job>, j: Job)
    requires DistinctIds(rows) && j.id !in IdsOf(rows)
    ensures DistinctIds(InsertNewestFirst(rows, j))
  {
    var p := InsertionPoint(rows, j);
    var r := InsertNewestFirst(rows, j);
    InsertShape(rows, j);
    forall a, b | 0 <= a < b < |r| ensures r[a].id != r[b].id {
      if a == p {
        assert rows[b - 1] in rows;
      } else if b == p {
        assert rows[a] in rows;
      }
    }
  }

  lemma InsertContents(rows: seq<Job>, j: Job)
    ensures forall x :: x in InsertNewestFirst(rows, j) <==> x in rows || x == j
    ensures IdsOf(InsertNewestFirst(rows, j)) == IdsOf(rows) + {j.id}
  {
    var p := InsertionPoint(rows, j);
    var r := InsertNewestFirst(rows, j);
    InsertShape(rows, j);
    forall x | x in r ensures x in rows || x == j {
      var i :| 0 <= i < |r| && r[i] == x;
      if i < p { assert x == rows[i]; } else if i > p { assert x == rows[i - 1]; }
    }
    forall x | x in rows ensures x in r {
      var i :| 0 <= i < |rows| && rows[i] == x;
      if i < p { assert r[i] == x; } else { assert r[i + 1] == x; }
    }
    assert r[p] in r;
  }

  /** The store: the Job table, the User table and the id generator. */
  class Database {
    var jobs: map<JobId, Job>
    var users: seq<User>
    var nextId: nat

    ghost predicate Valid()
      reads this
    {
      StoreInvariant(jobs, nextId)
    }

    constructor (users: seq<User>)
      ensures Valid() && jobs == map[] && this.users == users
    {
      this.jobs := map[];
      this.users := users;
      this.nextId := 0;
    }

    /** `prisma.job.count({ where })`. */
    function Count(w: JobFilter): (n: nat)
      reads this
      ensures n <= |jobs|
    {
      MatchingSubset(jobs, w);
      |MatchingIds(jobs, w)|
    }

    /** `prisma.job.findFirst({ orderBy: { createdAt: 'desc' } })`: a row created last, None for an empty table. */
    method FindLatestCreated() returns (latest: Option<Job>)
      requires Valid()
      ensures latest.None? <==> jobs == map[]
      ensures latest.Some? ==> latest.value.id in jobs && jobs[latest.value.id] == latest.value
      ensures latest.Some? ==> forall k :: k in jobs ==> jobs[k].createdAt <= latest.value.createdAt
    {
      if jobs == map[] {
        return None;
      }
      var first :| first in jobs;
      var best := jobs[first];
      assert best.id == first;
      var remaining := jobs.Keys - {first};
      while remaining != {}
        invariant remaining <= jobs.Keys
        invariant best.id in jobs && jobs[best.id] == best
        invariant forall k :: k in jobs && k !in remaining ==> jobs[k].createdAt <= best.createdAt
        decreases |remaining|
      {
        var k :| k in remaining;
        assert jobs[k].id == k;
        if jobs[k].createdAt > best.createdAt {
          best := jobs[k];
        }
        remaining := remaining - {k};
      }
      latest := Some(best);
    }

    /** `prisma.job.findUnique({ where: { url } })`. */
    method FindUniqueByUrl(url: string) returns (found: Option<Job>)
      requires Valid()
      ensures found.Some? <==> HasUrl(jobs, url)
      ensures found.Some? ==> found.value.url == url && found.value.id in jobs && jobs[found.value.id] == found.value
    {
      if k :| k in jobs && jobs[k].url == url {
        found := Some(jobs[k]);
      } else {
        found := None;
      }
    }

    /**
     * `prisma.job.create({ data })`. The unique constraint on `url` rejects a second row
     * with the same url (None, nothing stored); otherwise the row gets the next id and
     * `createdAt = now`.
     */
    method Create(data: JobData, now: Instant) returns (created: Option<Job>)
      requires Valid()
      modifies this
      ensures Valid() && users == old(users)
      ensures HasUrl(old(jobs), data.url) ==>
        created == None && jobs == old(jobs) && nextId == old(nextId)
      ensures !HasUrl(old(jobs), data.url) ==>
        && created == Some(NewRow(old(nextId), data, now))
        && jobs == Inserted(old(jobs), old(nextId), data, now)
        && nextId == old(nextId) + 1
    {
      if HasUrl(jobs, data.url) {
        created := None;
      } else {
        InsertKeepsInvariant(jobs, nextId, data, now);
        var row := NewRow(nextId, data, now);
        jobs := jobs[nextId := row];
        nextId := nextId + 1;
        created := Some(row);
      }
    }

    /** `prisma.job.updateMany({ where: { id: { in: ids } }, data: { emailed: true } })`. */
    method UpdateManyEmailed(ids: set<JobId>)
      requires Valid()
      modifies this
      ensures Valid()
      ensures jobs == MarkedEmailed(old(jobs), ids)
      ensures users == old(users) && nextId == old(nextId)
    {
      MarkingKeepsInvariant(jobs, nextId, ids);
      jobs := MarkedEmailed(jobs, ids);
    }

    /**
     * `prisma.job.findMany({ where: w, orderBy: [{ postedAt: 'desc' }, { createdAt: 'desc' }] })`:
     * every matching row once, newest first. Rows that tie on both keys come in an order
     * the store chooses.
     */
    method FindMany(w: JobFilter) returns (rows: seq<Job>)
      requires Valid()
      ensures IsListing(rows, jobs, w)
    {
      rows := [];
      var remaining := jobs.Keys;
      while remaining != {}
        invariant remaining <= jobs.Keys
        invariant NewestFirst(rows) && DistinctIds(rows) && RowsOf(rows, jobs)
        invariant IdsOf(rows) == MatchingIds(jobs, w) - remaining
        decreases |remaining|
      {
        var k :| k in remaining;
        if Matches(w, jobs[k]) {
          assert jobs[k].id == k;
          InsertNewestFirstFacts(rows, jobs[k]);
          rows := InsertNewestFirst(rows, jobs[k]);
        }
        remaining := remaining - {k};
      }
    }
  }
}
