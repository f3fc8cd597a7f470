/**
 * Ingestion (src/lib/jobService.ts): postings returned by the JobTech search are
 * kept when their municipality names a target location, each kept posting's url is
 * chosen, and a posting whose url the store already holds is counted as a duplicate;
 * any other one becomes a new job row. `Ingest` is the specification of the loop,
 * `FetchJobsFromJobTech` the loop itself over the store, and the lemmas state what
 * the loop guarantees: the unique-url invariant, exact counters, rows that are never
 * altered, and that a second run over the same batch saves nothing.
 */
module JobService {
  import opened Wrappers
  import opened Strings
  import opened Store

  /** One hit of the search response, with `publication_date` already parsed. */
  datatype Posting = Posting(
    id: string,
    headline: string,
    employerName: Option<string>,     // employer?.name
    municipality: Option<string>,     // workplace_address?.municipality
    publicationDate: Instant,
    applicationUrl: Option<string>,   // application_details?.url
    webpageUrl: Option<string>)       // webpage_url

  const TargetLocations: seq<string> := ["Göteborg", "Mölndal"]
  const UnknownCompany: string := "Unknown Company"
  const UnknownLocation: string := "Unknown Location"
  const JobTechSource: string := "jobtech"
  const FetchFailedMessage: string := "Failed to fetch jobs from JobTech API"

  /** `locations.some(location => municipality.includes(location))`. */
  function SomeLocationIn(municipality: string, locations: seq<string>): (b: bool)
    ensures b <==> exists i :: 0 <= i < |locations| && Contains(municipality, locations[i])
  {
    if locations == [] then false
    else Contains(municipality, locations[0]) || SomeLocationIn(municipality, locations[1..])
  }

  /** The location filter: a missing municipality never matches. */
  predicate InTargetArea(p: Posting) {
    p.municipality.Some? && SomeLocationIn(p.municipality.value, TargetLocations)
  }

  /** A posting survives iff its municipality contains "Göteborg" or "Mölndal", case-sensitively. */
  lemma InTargetAreaIff(p: Posting)
    ensures InTargetArea(p) <==>
      p.municipality.Some? &&
      (Contains(p.municipality.value, "Göteborg") || Contains(p.municipality.value, "Mölndal"))
  {
    if p.municipality.Some? {
      var m := p.municipality.value;
      assert TargetLocations[1..] == ["Mölndal"] && ["Mölndal"][1..] == [];
      assert SomeLocationIn(m, ["Mölndal"]) == Contains(m, "Mölndal");
      assert SomeLocationIn(m, TargetLocations) == (Contains(m, "Göteborg") || SomeLocationIn(m, ["Mölndal"]));
    }
  }

  /** `jobs.filter(InTargetArea)`: the surviving postings, in their original order. */
  function FilterByLocation(hits: seq<Posting>): (r: seq<Posting>)
    ensures |r| <= |hits|
    ensures forall p :: p in r <==> p in hits && InTargetArea(p)
  {
    if hits == [] then []
    else (if InTargetArea(hits[0]) then [hits[0]] else []) + FilterByLocation(hits[1..])
  }

  /** Filtering a concatenation filters each part: the filter keeps the response's order. */
  lemma {:induction false} FilterByLocationAppend(a: seq<Posting>, b: seq<Posting>)
    ensures FilterByLocation(a + b) == FilterByLocation(a) + FilterByLocation(b)
  {
    if a != [] {
      assert (a + b)[0] == a[0] && (a + b)[1..] == a[1..] + b;
      FilterByLocationAppend(a[1..], b);
      var head := if InTargetArea(a[0]) then [a[0]] else [];
      assert head + (FilterByLocation(a[1..]) + FilterByLocation(b))
          == (head + FilterByLocation(a[1..])) + FilterByLocation(b);
    } else {
      assert a + b == b;
    }
  }

  /** `application_details?.url || webpage_url`, with a falsy result read as "no url". */
  function ChooseUrl(p: Posting): (u: Option<string>)
    ensures u.Some? ==> u.value != ""
    ensures Truthy(p.applicationUrl) ==> u == p.applicationUrl
    ensures !Truthy(p.applicationUrl) ==> (u.Some? <==> Truthy(p.webpageUrl)) && (u.Some? ==> u == p.webpageUrl)
  {
    if Truthy(p.applicationUrl) then p.applicationUrl
    else if Truthy(p.webpageUrl) then p.webpageUrl
    else None
  }

  /** `value || fallback` on an optional string. */
  function OrDefault(value: Option<string>, fallback: string): (r: string)
    ensures Truthy(value) ==> r == value.value
    ensures !Truthy(value) ==> r == fallback
  {
    if Truthy(value) then value.value else fallback
  }

  /** The data of the row created for a new posting. */
  function JobFromPosting(p: Posting, url: string): JobData {
    JobData(
      title := p.headline,
      company := OrDefault(p.employerName, UnknownCompany),
      location := OrDefault(p.municipality, UnknownLocation),
      postedAt := p.publicationDate,
      url := url,
      source := JobTechSource,
      applied := false,
      emailed := false)
  }

  /** The loop's state: the store and the two counters. */
  datatype IngestState = IngestState(jobs: map<JobId, Job>, nextId: nat, saved: nat, duplicates: nat)

  /**
   * One iteration: skip a posting without a url; a posting whose store call fails
   * (`fails`) is caught and counted in neither counter; a url already stored counts
   * a duplicate; anything else is inserted and counted as saved.
   */
  function IngestStep(st: IngestState, p: Posting, fails: bool, now: Instant): IngestState {
    match ChooseUrl(p)
    case None => st
    case Some(url) =>
      if fails then st
      else if HasUrl(st.jobs, url) then st.(duplicates := st.duplicates + 1)
      else IngestState(Inserted(st.jobs, st.nextId, JobFromPosting(p, url), now), st.nextId + 1, st.saved + 1, st.duplicates)
  }

  /** The loop over `ps`; `failures` holds the positions whose store call throws. */
  function Ingest(st: IngestState, ps: seq<Posting>, failures: set<nat>, now: Instant): IngestState
    decreases |ps|
  {
    if ps == [] then st
    else
      var n := |ps| - 1;
      IngestStep(Ingest(st, ps[..n], failures, now), ps[n], n in failures, now)
  }

  /** How many postings reach the store and get an answer: those with a url whose store call does not fail. */
  function CountAttempted(ps: seq<Posting>, failures: set<nat>): (c: nat)
    ensures c <= |ps|
    decreases |ps|
  {
    if ps == [] then 0
    else
      var n := |ps| - 1;
      CountAttempted(ps[..n], failures) + (if ChooseUrl(ps[n]).Some? && n !in failures then 1 else 0)
  }

  /** No position of `ps` fails. */
  predicate NoFailures(ps: seq<Posting>, failures: set<nat>) {
    forall i :: 0 <= i < |ps| ==> i !in failures
  }

  lemma IngestStepKeepsInvariant(st: IngestState, p: Posting, fails: bool, now: Instant)
    requires StoreInvariant(st.jobs, st.nextId)
    ensures StoreInvariant(IngestStep(st, p, fails, now).jobs, IngestStep(st, p, fails, now).nextId)
  {
    match ChooseUrl(p)
    case None =>
    case Some(url) =>
      if !fails && !HasUrl(st.jobs, url) {
        InsertKeepsInvariant(st.jobs, st.nextId, JobFromPosting(p, url), now);
      }
  }

  /** The loop keeps the store's unique-url invariant, whatever the batch and whichever calls fail. */
  lemma {:induction false} IngestKeepsInvariant(st: IngestState, ps: seq<Posting>, failures: set<nat>, now: Instant)
    requires StoreInvariant(st.jobs, st.nextId)
    ensures StoreInvariant(Ingest(st, ps, failures, now).jobs, Ingest(st, ps, failures, now).nextId)
    decreases |ps|
  {
    if ps != [] {
      var n := |ps| - 1;
      IngestKeepsInvariant(st, ps[..n], failures, now);
      IngestStepKeepsInvariant(Ingest(st, ps[..n], failures, now), ps[n], n in failures, now);
    }
  }

  /**
   * The counters are exact: saved plus duplicates grows by the number of postings with a
   * url whose store call did not fail, so it never exceeds the number fetched.
   */
  lemma {:induction false} IngestCounters(st: IngestState, ps: seq<Posting>, failures: set<nat>, now: Instant)
    ensures var r := Ingest(st, ps, failures, now);
      r.saved >= st.saved && r.duplicates >= st.duplicates &&
      (r.saved - st.saved) + (r.duplicates - st.duplicates) == CountAttempted(ps, failures) &&
      CountAttempted(ps, failures) <= |ps|
    decreases |ps|
  {
    if ps != [] {
      IngestCounters(st, ps[..|ps| - 1], failures, now);
    }
  }

  /** Stored rows are never altered or removed, and the table grows by exactly the saved count. */
  lemma {:induction false} IngestKeepsRows(st: IngestState, ps: seq<Posting>, failures: set<nat>, now: Instant)
    requires StoreInvariant(st.jobs, st.nextId)
    ensures var r := Ingest(st, ps, failures, now);
      r.saved >= st.saved && r.nextId == st.nextId + (r.saved - st.saved) &&
      (forall k :: k in st.jobs ==> k in r.jobs && r.jobs[k] == st.jobs[k]) &&
      |r.jobs| == |st.jobs| + (r.saved - st.saved)
    decreases |ps|
  {
    if ps != [] {
      var n := |ps| - 1;
      var mid := Ingest(st, ps[..n], failures, now);
      IngestKeepsRows(st, ps[..n], failures, now);
      IngestKeepsInvariant(st, ps[..n], failures, now);
      match ChooseUrl(ps[n])
      case None =>
      case Some(url) =>
        if !(n in failures) && !HasUrl(mid.jobs, url) {
          assert mid.nextId !in mid.jobs;
        }
    }
  }

  /**
   * Every row the loop adds is a fresh "jobtech" row, neither applied nor emailed,
   * created at `now`, whose url is the chosen url of some posting of the batch.
   */
  lemma {:induction false} IngestNewRows(st: IngestState, ps: seq<Posting>, failures: set<nat>, now: Instant)
    requires StoreInvariant(st.jobs, st.nextId)
    ensures var r := Ingest(st, ps, failures, now);
      forall k :: k in r.jobs && k !in st.jobs ==>
        && r.jobs[k].source == JobTechSource && !r.jobs[k].applied && !r.jobs[k].emailed
        && r.jobs[k].createdAt == now
        && exists i :: 0 <= i < |ps| && ChooseUrl(ps[i]) == Some(r.jobs[k].url) &&
                       r.jobs[k] == NewRow(k, JobFromPosting(ps[i], r.jobs[k].url), now)
    decreases |ps|
  {
    if ps != [] {
      var n := |ps| - 1;
      var mid := Ingest(st, ps[..n], failures, now);
      var r := Ingest(st, ps, failures, now);
      IngestNewRows(st, ps[..n], failures, now);
      IngestKeepsRows(st, ps[..n], failures, now);
      forall k | k in r.jobs && k !in st.jobs
        ensures exists i :: 0 <= i < |ps| && ChooseUrl(ps[i]) == Some(r.jobs[k].url) &&
                            r.jobs[k] == NewRow(k, JobFromPosting(ps[i], r.jobs[k].url), now)
      {
        if k in mid.jobs {
          assert r.jobs[k] == mid.jobs[k] by {
            IngestKeepsInvariant(st, ps[..n], failures, now);
          }
          var i :| 0 <= i < n && ChooseUrl(ps[..n][i]) == Some(mid.jobs[k].url) &&
                   mid.jobs[k] == NewRow(k, JobFromPosting(ps[..n][i], mid.jobs[k].url), now);
          assert ps[..n][i] == ps[i];
        } else {
          assert ChooseUrl(ps[n]) == Some(r.jobs[k].url);
        }
      }
    }
  }

  /** Rows created from filtered postings carry a municipality that names a target location. */
  lemma FilteredRowsInTargetArea(p: Posting, url: string)
    requires InTargetArea(p)
    ensures var d := JobFromPosting(p, url);
      d.location == p.municipality.value && SomeLocationIn(d.location, TargetLocations)
  {
    var m := p.municipality.value;
    var i :| 0 <= i < |TargetLocations| && Contains(m, TargetLocations[i]);
    assert |TargetLocations[i]| > 0;
  }

  /** With no failures, every posting that has a url leaves that url in the store. */
  lemma {:induction false} IngestStoresEveryUrl(st: IngestState, ps: seq<Posting>, failures: set<nat>, now: Instant)
    requires StoreInvariant(st.jobs, st.nextId)
    requires NoFailures(ps, failures)
    ensures forall i :: 0 <= i < |ps| && ChooseUrl(ps[i]).Some? ==>
      HasUrl(Ingest(st, ps, failures, now).jobs, ChooseUrl(ps[i]).value)
    decreases |ps|
  {
    if ps != [] {
      var n := |ps| - 1;
      var mid := Ingest(st, ps[..n], failures, now);
      var r := Ingest(st, ps, failures, now);
      IngestStoresEveryUrl(st, ps[..n], failures, now);
      IngestKeepsInvariant(st, ps[..n], failures, now);
      forall i | 0 <= i < |ps| && ChooseUrl(ps[i]).Some?
        ensures HasUrl(r.jobs, ChooseUrl(ps[i]).value)
      {
        var u := ChooseUrl(ps[i]).value;
        if i < n {
          assert ps[..n][i] == ps[i];
          assert HasUrl(mid.jobs, u);
          var k :| k in mid.jobs && mid.jobs[k].url == u;
          if ChooseUrl(ps[n]).Some? && !HasUrl(mid.jobs, ChooseUrl(ps[n]).value) {
            assert mid.nextId !in mid.jobs;
            assert r.jobs[k].url == u;
          }
        } else {
          if !HasUrl(mid.jobs, u) {
            assert r.jobs[mid.nextId].url == u;
          }
        }
      }
    }
  }

  /**
   * When every url of the batch is already stored, the loop saves nothing and changes
   * nothing; without failures, every posting with a url counts as a duplicate.
   */
  lemma {:induction false} IngestKnownUrls(st: IngestState, ps: seq<Posting>, failures: set<nat>, now: Instant)
    requires forall i :: 0 <= i < |ps| && ChooseUrl(ps[i]).Some? ==> HasUrl(st.jobs, ChooseUrl(ps[i]).value)
    ensures var r := Ingest(st, ps, failures, now);
      r.jobs == st.jobs && r.nextId == st.nextId && r.saved == st.saved &&
      r.duplicates == st.duplicates + CountAttempted(ps, failures)
    decreases |ps|
  {
    if ps != [] {
      var n := |ps| - 1;
      forall i | 0 <= i < n && ChooseUrl(ps[..n][i]).Some?
        ensures HasUrl(st.jobs, ChooseUrl(ps[..n][i]).value)
      {
        assert ps[..n][i] == ps[i];
      }
      IngestKnownUrls(st, ps[..n], failures, now);
    }
  }

  /**
   * Idempotence: after a run in which no store call failed, running the same batch again
   * (whatever fails then) saves nothing and leaves the store as it was; with no failures the
   * second run reports as duplicates exactly what the first run saved or found.
   */
  lemma SecondRunSavesNothing(jobs: map<JobId, Job>, nextId: nat, ps: seq<Posting>,
                              failures: set<nat>, now1: Instant, now2: Instant)
    requires StoreInvariant(jobs, nextId)
    ensures var first := Ingest(IngestState(jobs, nextId, 0, 0), ps, {}, now1);
      var second := Ingest(IngestState(first.jobs, first.nextId, 0, 0), ps, failures, now2);
      second.saved == 0 && second.jobs == first.jobs &&
      (NoFailures(ps, failures) ==> second.duplicates == first.saved + first.duplicates)
  {
    var first := Ingest(IngestState(jobs, nextId, 0, 0), ps, {}, now1);
    IngestStoresEveryUrl(IngestState(jobs, nextId, 0, 0), ps, {}, now1);
    IngestKnownUrls(IngestState(first.jobs, first.nextId, 0, 0), ps, failures, now2);
    IngestCounters(IngestState(jobs, nextId, 0, 0), ps, {}, now1);
    if NoFailures(ps, failures) {
      CountAttemptedWithoutFailures(ps, failures);
    }
  }

  /** Failures outside the batch do not matter to the count. */
  lemma {:induction false} CountAttemptedWithoutFailures(ps: seq<Posting>, failures: set<nat>)
    requires NoFailures(ps, failures)
    ensures CountAttempted(ps, failures) == CountAttempted(ps, {})
    decreases |ps|
  {
    if ps != [] {
      var n := |ps| - 1;
      assert NoFailures(ps[..n], failures);
      CountAttemptedWithoutFailures(ps[..n], failures);
    }
  }

  /**
   * Per position: a posting with a url whose store call does not fail leaves that url in
   * the store, whatever the rest of the batch and whichever other calls fail.
   */
  lemma {:induction false} IngestStoresUrlAt(st: IngestState, ps: seq<Posting>, failures: set<nat>, now: Instant, i: nat)
    requires StoreInvariant(st.jobs, st.nextId)
    requires i < |ps| && i !in failures && ChooseUrl(ps[i]).Some?
    ensures HasUrl(Ingest(st, ps, failures, now).jobs, ChooseUrl(ps[i]).value)
    decreases |ps|
  {
    var n := |ps| - 1;
    var u := ChooseUrl(ps[i]).value;
    var mid := Ingest(st, ps[..n], failures, now);
    var r := Ingest(st, ps, failures, now);
    IngestKeepsInvariant(st, ps[..n], failures, now);
    if i == n {
      if !HasUrl(mid.jobs, u) {
        assert r.jobs[mid.nextId].url == u;
      }
    } else {
      assert ps[..n][i] == ps[i];
      IngestStoresUrlAt(st, ps[..n], failures, now, i);
      var k :| k in mid.jobs && mid.jobs[k].url == u;
      if ChooseUrl(ps[n]).Some? && n !in failures && !HasUrl(mid.jobs, ChooseUrl(ps[n]).value) {
        assert mid.nextId !in mid.jobs;
        assert r.jobs[k].url == u;
      }
    }
  }

  /**
   * A url met again later in the same batch, with neither store call failing, only counts
   * a duplicate at its second position: the store, the next id and the saved count stay.
   */
  lemma RepeatedUrlCountsDuplicate(st: IngestState, ps: seq<Posting>, failures: set<nat>, now: Instant, i: nat, j: nat)
    requires StoreInvariant(st.jobs, st.nextId)
    requires i < j < |ps| && i !in failures && j !in failures
    requires ChooseUrl(ps[i]).Some? && ChooseUrl(ps[j]) == ChooseUrl(ps[i])
    ensures var before := Ingest(st, ps[..j], failures, now);
      Ingest(st, ps[..j + 1], failures, now) == before.(duplicates := before.duplicates + 1)
  {
    assert ps[..j][i] == ps[i];
    IngestStoresUrlAt(st, ps[..j], failures, now, i);
    assert ps[..j + 1][..j] == ps[..j];
  }

  /** Two postings with one url and different titles, on a store without it: one saved, one duplicate. */
  lemma SameUrlTwiceInOneBatch(jobs: map<JobId, Job>, nextId: nat, a: Posting, b: Posting, now: Instant)
    requires StoreInvariant(jobs, nextId)
    requires ChooseUrl(a).Some? && ChooseUrl(a) == ChooseUrl(b) && !HasUrl(jobs, ChooseUrl(a).value)
    ensures var r := Ingest(IngestState(jobs, nextId, 0, 0), [a, b], {}, now);
      r.saved == 1 && r.duplicates == 1 && |r.jobs| == |jobs| + 1
  {
    var st := IngestState(jobs, nextId, 0, 0);
    var url := ChooseUrl(a).value;
    assert [a, b][..1] == [a];
    assert [a][..0] == [];
    assert Ingest(st, [a], {}, now) == IngestStep(Ingest(st, [], {}, now), a, false, now);
    var mid := IngestStep(st, a, false, now);
    assert mid == IngestState(Inserted(jobs, nextId, JobFromPosting(a, url), now), nextId + 1, 1, 0);
    assert HasUrl(mid.jobs, url) by {
      assert mid.jobs[nextId].url == url;
    }
    assert Ingest(st, [a, b], {}, now) == IngestStep(mid, b, false, now);
    assert nextId !in jobs;
  }

  /** A Stockholm posting is filtered out and a Göteborg posting kept. */
  lemma FilterExample(stockholm: Posting, goteborg: Posting)
    requires stockholm.municipality == Some("Stockholm")
    requires goteborg.municipality == Some("Göteborg")
    ensures FilterByLocation([stockholm, goteborg]) == [goteborg]
  {
    InTargetAreaIff(stockholm);
    InTargetAreaIff(goteborg);
    NotContainedWhenLonger("Stockholm", "Göteborg");
    NotContainedWhenLonger("Stockholm", "Mölndal");
    ContainsAt("Göteborg", "Göteborg", 0);
    assert !InTargetArea(stockholm) && InTargetArea(goteborg);
    assert [stockholm, goteborg][1..] == [goteborg] && [goteborg][1..] == [];
    assert FilterByLocation([goteborg]) == [goteborg] + FilterByLocation([]);
  }

  /** "Stockholm" contains neither target: both have 'ö' second, and "Stockholm" has no 'ö'. */
  lemma NotContainedWhenLonger(s: string, t: string)
    requires s == "Stockholm" && (t == "Göteborg" || t == "Mölndal")
    ensures !Contains(s, t)
  {
    assert |t| >= 7 && t[1] == 'ö';
    forall i | 0 <= i <= |s| - |t| ensures !StartsWith(s[i..], t) {
      assert i <= 2;
      assert s[i + 1] != 'ö';
      assert s[i..][1] == s[i + 1];
    }
  }

  /**
   * `fetchJobsFromJobTech`, given the search response (None when the request fails or
   * times out) and the positions of the filtered list whose store call throws.
   */
  method FetchJobsFromJobTech(db: Database, response: Option<seq<Posting>>, failures: set<nat>, now: Instant)
    returns (r: Result<FetchCounts, string>)
    requires db.Valid()
    modifies db
    ensures db.Valid() && db.users == old(db.users)
    ensures response.None? ==>
      r == Failure(FetchFailedMessage) && db.jobs == old(db.jobs) && db.nextId == old(db.nextId)
    ensures response.Some? ==>
      var filtered := FilterByLocation(response.value);
      var st := Ingest(IngestState(old(db.jobs), old(db.nextId), 0, 0), filtered, failures, now);
      && r == Success(FetchCounts(|filtered|, st.saved, st.duplicates))
      && db.jobs == st.jobs && db.nextId == st.nextId
  {
    if response.None? {
      return Failure(FetchFailedMessage);
    }
    var filtered := FilterByLocation(response.value);
    var saved, duplicates := 0, 0;
    ghost var init := IngestState(db.jobs, db.nextId, 0, 0);
    for i := 0 to |filtered|
      invariant db.Valid() && db.users == old(db.users)
      invariant IngestState(db.jobs, db.nextId, saved, duplicates) == Ingest(init, filtered[..i], failures, now)
    {
      assert filtered[..i + 1][..i] == filtered[..i];
      var posting := filtered[i];
      var url := ChooseUrl(posting);
      if url.None? {
        continue;
      }
      if i in failures {
        continue;
      }
      var existing := db.FindUniqueByUrl(url.value);
      if existing.Some? {
        duplicates := duplicates + 1;
        continue;
      }
      var created := db.Create(JobFromPosting(posting, url.value), now);
      saved := saved + 1;
    }
    assert filtered[..|filtered|] == filtered;
    r := Success(FetchCounts(|filtered|, saved, duplicates));
  }

  datatype FetchCounts = FetchCounts(fetched: nat, saved: nat, duplicates: nat)

  /** `fetched` counts every filtered posting, url-less ones included, so it bounds the other two. */
  lemma FetchCountsBound(hits: seq<Posting>, jobs: map<JobId, Job>, nextId: nat, failures: set<nat>, now: Instant)
    ensures var filtered := FilterByLocation(hits);
      var st := Ingest(IngestState(jobs, nextId, 0, 0), filtered, failures, now);
      st.saved + st.duplicates <= |filtered| <= |hits|
  {
    IngestCounters(IngestState(jobs, nextId, 0, 0), FilterByLocation(hits), failures, now);
  }

  datatype JobStats = JobStats(total: nat, applied: nat, emailed: nat, recent: nat)

  const RecentWindowMs: int := 7 * DayMs

  function AppliedIds(jobs: map<JobId, Job>): set<JobId> {
    set k | k in jobs && jobs[k].applied
  }

  function EmailedIds(jobs: map<JobId, Job>): set<JobId> {
    set k | k in jobs && jobs[k].emailed
  }

  function CreatedSince(jobs: map<JobId, Job>, since: Instant): set<JobId> {
    set k | k in jobs && jobs[k].createdAt >= since
  }

  lemma SubsetSize<T>(a: set<T>, b: set<T>)
    requires a <= b
    ensures |a| <= |b|
  {
    assert b == a + (b - a);
  }

  /** `getJobStats`: four counts over the table, each bounded by the total. */
  function GetJobStats(jobs: map<JobId, Job>, now: Instant): (s: JobStats)
    ensures s.total == |jobs|
    ensures s.applied <= s.total && s.emailed <= s.total && s.recent <= s.total
    ensures s.recent == |CreatedSince(jobs, now - RecentWindowMs)|
  {
    SubsetSize(AppliedIds(jobs), jobs.Keys);
    SubsetSize(EmailedIds(jobs), jobs.Keys);
    SubsetSize(CreatedSince(jobs, now - RecentWindowMs), jobs.Keys);
    JobStats(|jobs|, |AppliedIds(jobs)|, |EmailedIds(jobs)|, |CreatedSince(jobs, now - RecentWindowMs)|)
  }

  /** After ingestion the total grows by the saved count, and rows created now count as recent. */
  lemma IngestStats(jobs: map<JobId, Job>, nextId: nat, ps: seq<Posting>, failures: set<nat>, now: Instant)
    requires StoreInvariant(jobs, nextId)
    ensures var r := Ingest(IngestState(jobs, nextId, 0, 0), ps, failures, now);
      GetJobStats(r.jobs, now).total == GetJobStats(jobs, now).total + r.saved &&
      GetJobStats(r.jobs, now).recent >= r.saved
  {
    var st := IngestState(jobs, nextId, 0, 0);
    var r := Ingest(st, ps, failures, now);
    IngestKeepsRows(st, ps, failures, now);
    IngestNewRows(st, ps, failures, now);
    var added := r.jobs.Keys - jobs.Keys;
    assert |r.jobs.Keys| == |jobs.Keys| + |added| by {
      assert r.jobs.Keys == jobs.Keys + added;
    }
    assert added <= CreatedSince(r.jobs, now - RecentWindowMs);
    SubsetSize(added, CreatedSince(r.jobs, now - RecentWindowMs));
  }
}
