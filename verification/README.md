# JobRadar: the ingestion and notification pipeline in Dafny

JobRadar collects developer jobs in the Göteborg/Mölndal area from the JobTech search API,
stores them in a Prisma database whose job `url` column is unique, and mails a daily digest
of the jobs not yet emailed to every user. Several routes and components sit around that
pipeline:

- the job listing and manual-create endpoint;
- the page guard;
- the job card's "posted … ago" text and its applied toggle;
- the date-range picker.

This project models that core and proves what the code promises about it.

Module by module:

- **Store** (`store.dfy`) stands for the database. A `Database` class holds the job table
  `map<JobId, Job>`, the users, and the id counter. Its methods are the Prisma calls the
  routes make (`findUnique` by url, `create`, `updateMany` of the emailed flag, `findMany`
  with a where clause and newest-first order, `findFirst` by creation time, `count`). The
  class invariant is the unique-url constraint together with the id discipline.
- **JobService** (`job_service.dfy`) models `fetchJobsFromJobTech` and `getJobStats`.
  - The location filter, the url choice and the defaults are pure functions.
  - The per-posting loop is the method `FetchJobsFromJobTech`. It is proved equal to a
    recursive specification `Ingest`, and the lemmas about the counters and the store are
    proved about `Ingest`.
- **EmailService** (`email_service.dfy`) models `escapeHtml`, `createJobEmailTemplate` and
  `sendJobAlertEmail`. It proves these properties of escaping:
  - no markup character survives;
  - every `&` opens one of the five entities;
  - escaping is the identity on safe text;
  - escaping distributes over concatenation;
  - decoding the entities gives the text back.

  The template shows the escaped user name, the count sentence, and one row per job in
  order. Each row shows the title, company, location and url escaped, and the posting
  date formatted, not escaped.
- **Dispatch** (`dispatch.dfy`) holds what the two digest routes share:
  - one send per user, in order;
  - the result list and the two counters;
  - the bulk mark of exactly the loaded jobs, done only when a send succeeded.
- **CronSendEmails**, **SendEmail** and **TestSendEmail** are the three digest routes: the
  cron endpoint with its secret gate, the manual endpoint, and the development endpoint
  with its four modes. Each route's `POST` is a method over the store, and so is the
  status `GET` of the cron and manual endpoints.
- **JobsApi** (`jobs_api.dfy`) covers `GET /api/jobs` and `POST /api/jobs`.
  - `GET` builds the where clause field by field, and its meaning is proved to be the
    predicate `Accepts` on the query. The page is a window into the ordered listing, and
    the pages together cover the listing exactly.
  - `POST` validates the body, rejects a duplicate url with 409, and inserts otherwise.
- **Middleware** (`middleware.dfy`) is the page guard's decision table.
- **JobCard** (`job_card.dfy`) has the integer "Nh ago / Nd ago" text and the applied toggle
  as a small class.
- **DateRangePicker** (`date_range_picker.dfy`) has the preset and custom ranges over dates
  written as a day number plus milliseconds within the day, and the picker's state as a
  class that records every range it reports.

The external systems are inputs or oracles:

- the JobTech response is `Option<seq<Posting>>`, where `None` means the request failed;
- the per-posting store failures are a set of positions;
- the Resend transport is a function `Email -> TransportOutcome`;
- `verifyAuth` is a boolean;
- the clock is an `Instant` parameter;
- `Intl.DateTimeFormat` is a `formatDate` function parameter;
- `new Date(string)` in the picker is a `parseDate` function parameter.

Two behaviours of the code to note:

- `fetched` is the number of postings that pass the location filter, including postings
  without a url.
- A store error on one posting (for instance a unique violation from a concurrent run) is
  caught and counted neither as saved nor as a duplicate.

## Model

| member | source | states |
|---|---|---|
| Store.InsertKeepsInvariant | src/lib/jobService.ts:97-108 | inserting a row whose url is not stored keeps urls pairwise distinct and ids consistent, and afterwards exactly the old urls plus the new one are present |
| Store.MarkedEmailed | src/app/api/cron/send-emails/route.ts:116-125 | the bulk mark keeps the same rows; a row is emailed afterwards iff it was before or its id is listed; no other column changes |
| Store.MarkingKeepsInvariant | src/app/api/cron/send-emails/route.ts:116-125 | the bulk mark keeps the unique-url constraint |
| Store.MatchingSubset | src/app/api/jobs/route.ts:91 | a count with a where clause never exceeds the number of rows |
| Store.ListingIsPostedNewestFirst | src/app/api/cron/send-emails/route.ts:56-63 | the store's postedAt-then-createdAt order is a postedAt-descending order, as the digest routes ask for |
| Store.ListingPrefixIsTop | src/app/api/test/send-email/route.ts:110-118 | the first n rows of a listing are n of the most recently posted matching rows (all of them when fewer match), stored values, distinct, postedAt-descending |
| Store.PrefixLeavesOlder | src/app/api/test/send-email/route.ts:110-118 | every matching row not among the first n is posted no later than each row taken |
| Store.SelectionSize | src/app/api/jobs/route.ts:81-92 | a `findMany` result has exactly as many rows as `count` with the same where clause |
| Store.InsertNewestFirstFacts | src/app/api/jobs/route.ts:84-87 | inserting a row into a newest-first list keeps it newest-first and distinct, and adds exactly that row |
| Store.Database.Count | src/lib/jobService.ts:134-147 | a count is never more than the rows stored |
| Store.Database.FindLatestCreated | src/app/api/cron/send-emails/route.ts:180-188 | none iff the table is empty; otherwise a stored row whose createdAt is at least every other row's |
| Store.Database.FindUniqueByUrl | src/lib/jobService.ts:87-89 | a row is found iff some stored row has that url, and the row found is that stored row |
| Store.Database.Create | src/lib/jobService.ts:97-108 | a url already stored is rejected and nothing changes; otherwise exactly one row is added, under the next id, with the given data and createdAt now |
| Store.Database.UpdateManyEmailed | src/app/api/cron/send-emails/route.ts:116-125 | the table becomes the bulk-marked table; users and ids unchanged; the invariant kept |
| Store.Database.FindMany | src/app/api/jobs/route.ts:82-90 | every matching row exactly once, as stored, ordered by postedAt then createdAt, both descending |
| JobService.SomeLocationIn | src/lib/jobService.ts:69-71 | true iff one of the locations is a case-sensitive substring of the municipality |
| JobService.InTargetAreaIff | src/lib/jobService.ts:68-72 | a posting passes the filter iff it has a municipality containing "Göteborg" or "Mölndal" |
| JobService.InTargetArea | src/lib/jobService.ts:68-72 | the filter's test: the municipality is present and names a target location; InTargetAreaIff spells out the two locations |
| JobService.FilterByLocation | src/lib/jobService.ts:68-72 | the filtered list holds exactly the postings of the batch in the target area, and is never longer |
| JobService.FilterByLocationAppend | src/lib/jobService.ts:68-72 | the filter distributes over concatenation, so it keeps the batch order |
| JobService.FilterExample | src/lib/jobService.ts:68-72 | a Stockholm posting is dropped and a Göteborg posting kept |
| JobService.ChooseUrl | src/lib/jobService.ts:80-84 | the application url when it is non-empty, else the webpage url when non-empty, else none; a chosen url is never empty |
| JobService.OrDefault | src/lib/jobService.ts:100-101 | a present non-empty value, otherwise the fallback ("Unknown Company", "Unknown Location") |
| JobService.JobFromPosting | src/lib/jobService.ts:97-108 | the `create` data of a posting: headline, employer or "Unknown Company", municipality or "Unknown Location", publication date, the chosen url, "jobtech", neither applied nor emailed; IngestNewRows and FilteredRowsInTargetArea state what the stored rows carry |
| JobService.IngestStep | src/lib/jobService.ts:86-110 | one iteration: skip a posting without a url or whose store call throws, count a duplicate for a known url, otherwise insert and count it saved; IngestStepKeepsInvariant is its invariant |
| JobService.Ingest | src/lib/jobService.ts:77-115 | the loop over the filtered batch, the specification FetchJobsFromJobTech is proved equal to; its properties are IngestKeepsInvariant, IngestCounters, IngestKeepsRows, IngestNewRows, IngestStoresUrlAt and RepeatedUrlCountsDuplicate |
| JobService.CountAttempted | src/lib/jobService.ts:77-115 | the postings that reach the store (have a url, call does not fail) are at most the batch |
| JobService.IngestStepKeepsInvariant | src/lib/jobService.ts:86-110 | one iteration keeps the unique-url constraint and the id discipline |
| JobService.IngestKeepsInvariant | src/lib/jobService.ts:77-115 | the whole loop keeps urls pairwise distinct |
| JobService.IngestCounters | src/lib/jobService.ts:77-115 | saved plus duplicates grows by exactly the postings that reach the store, which are at most the batch |
| JobService.IngestKeepsRows | src/lib/jobService.ts:77-115 | rows stored before are untouched, the table grows by exactly `saved` rows and the id counter by `saved` |
| JobService.IngestNewRows | src/lib/jobService.ts:97-108 | every new row is built from a posting of the batch with its chosen url, source "jobtech", not applied, not emailed, createdAt now |
| JobService.FilteredRowsInTargetArea | src/lib/jobService.ts:101 | a filtered posting's stored location is its municipality, which lies in the target area |
| JobService.IngestStoresEveryUrl | src/lib/jobService.ts:86-110 | without store failures every chosen url of the batch is stored afterwards (saved or duplicate) |
| JobService.IngestKnownUrls | src/lib/jobService.ts:87-94 | when every url is already stored the store is unchanged, nothing is saved and every attempted posting counts as a duplicate |
| JobService.SecondRunSavesNothing | src/lib/jobService.ts:87-94 | rerunning a batch after a fully successful run saves nothing and changes nothing; without failures its duplicates equal the first run's saved plus duplicates |
| JobService.CountAttemptedWithoutFailures | src/lib/jobService.ts:111-114 | with no failing positions the postings that reach the store are those with a url |
| JobService.SameUrlTwiceInOneBatch | src/lib/jobService.ts:77-115 | two postings with the same new url in one batch: one saved, one duplicate, one row added |
| JobService.IngestStoresUrlAt | src/lib/jobService.ts:86-110 | a posting with a url whose store call does not fail leaves its url stored after the loop, whatever the other postings and failures |
| JobService.RepeatedUrlCountsDuplicate | src/lib/jobService.ts:86-110 | at a later position of a url already met without failure, the loop only adds one to the duplicates: store, next id and saved count unchanged |
| JobService.FetchJobsFromJobTech | src/lib/jobService.ts:48-127 | a failed request gives the error "Failed to fetch jobs from JobTech API" and stores nothing; otherwise fetched is the filtered count, and saved, duplicates and the new store are those of the loop specification |
| JobService.FetchCountsBound | src/lib/jobService.ts:117-121 | saved + duplicates <= fetched <= hits |
| JobService.GetJobStats | src/lib/jobService.ts:132-153 | total is the number of rows; applied, emailed and recent are each at most total; recent counts rows created in the last 7 days |
| JobService.IngestStats | src/lib/jobService.ts:141-147 | after a run the total grows by exactly saved, and recent is at least saved |
| EmailService.EscapeChar | src/lib/emailService.ts:151-158 | each of & < > " ' becomes an entity starting with '&'; any other character is kept |
| EmailService.EscapeHtml | src/lib/emailService.ts:150-159 | the escaped text is never shorter |
| EmailService.EscapeHtmlAppend | src/lib/emailService.ts:158 | escape(a + b) == escape(a) + escape(b) |
| EmailService.EscapeHtmlIdentityOnSafe | src/lib/emailService.ts:158 | text without & < > " ' is unchanged |
| EmailService.EntityShape | src/lib/emailService.ts:151-157 | an entity holds no markup character and no '&' after its first, and a leading '&' opens one of the five entities |
| EmailService.EscapedIsSafe | src/lib/emailService.ts:150-159 | escaped text contains none of < > " ', and every & in it begins &amp; &lt; &gt; &quot; or &#39; |
| EmailService.UnescapeStep | src/lib/emailService.ts:151-158 | decoding an escaped character followed by anything gives the character back first |
| EmailService.UnescapeEscape | src/lib/emailService.ts:150-159 | decoding the five entities of escaped text gives the original text |
| EmailService.EscapeHtmlInjective | src/lib/emailService.ts:150-159 | different texts escape to different texts |
| EmailService.JobRowShowsFields | src/lib/emailService.ts:14-40 | a job's row shows title, company, location and url in escaped form, and the formatted posting date |
| EmailService.JobRow | src/lib/emailService.ts:14-40 | one job's table row: fixed markup around the escaped title, company, location and url and the formatted date; JobRowShowsFields and RowMarkupIsFixed state what it shows |
| EmailService.JobRows | src/lib/emailService.ts:14-40 | `jobs.map(row).join('')`, the rows of the jobs in order; JobRowsAppend and JobRowsInOrder state it |
| EmailService.RowMarkupIsFixed | src/lib/emailService.ts:14-40 | the fields reach a row only escaped: when the formatted dates hold no markup character, any two rows hold the same markup characters in the same order, so no field can open a tag or close the link's attribute |
| EmailService.JobRowsAppend | src/lib/emailService.ts:14-40 | the rows of a + b are the rows of a followed by the rows of b |
| EmailService.JobRowsInOrder | src/lib/emailService.ts:14-40 | the i-th job's row stands after the rows of the jobs before it and before those after it |
| EmailService.PositionWordSingular | src/lib/emailService.ts:73 | the noun is "position" iff the count is 1 |
| EmailService.PositionWord | src/lib/emailService.ts:73 | the noun of the count sentence, singular for one job; PositionWordSingular states it |
| EmailService.CountSentence | src/lib/emailService.ts:73 | the count sentence: the job count in decimal and the noun; CountSentenceInjective shows the count can be read back from it |
| EmailService.CountSentenceInjective | src/lib/emailService.ts:73 | the count sentence determines the number of jobs |
| EmailService.CreateJobEmailTemplate | src/lib/emailService.ts:13-107 | the document shows the escaped user name, the count sentence for the number of jobs, and the rows of all jobs |
| EmailService.TemplateShowsName | src/lib/emailService.ts:69 | the greeting holds the escaped user name |
| EmailService.TemplateShowsCount | src/lib/emailService.ts:73 | the document holds the count sentence |
| EmailService.TemplateShowsRows | src/lib/emailService.ts:79 | the document holds the joined rows |
| EmailService.EveryJobHasARow | src/lib/emailService.ts:14-40 | every job's own row occurs in the document |
| EmailService.SubjectForm | src/lib/emailService.ts:120-122 | both subject branches are one pattern: the count, the noun, and an "s" unless the count is 1 |
| EmailService.Subject | src/lib/emailService.ts:120-122 | the subject line, a fixed text for one job and the count with "Positions" otherwise; SubjectForm and SubjectInjective state its pattern and that it determines the count |
| EmailService.SubjectInjective | src/lib/emailService.ts:120-122 | the subject determines the number of jobs |
| EmailService.AlertEmail | src/lib/emailService.ts:118-129 | no email iff there are no jobs; otherwise from the JobRadar sender to exactly the user, with the subject for the count |
| EmailService.SendJobAlertEmail | src/lib/emailService.ts:112-145 | no jobs gives failure "No jobs to send"; otherwise success iff delivered; a rejection carries its message or "Failed to send email"; a throw its message or "Unknown error occurred" |
| EmailService.FailureHasMessage | src/lib/emailService.ts:131-143 | a send fails iff it carries an error |
| EmailService.EmptyJobsIgnoreTransport | src/lib/emailService.ts:114-116 | with no jobs the result does not depend on the transport |
| Dispatch.DigestResults | src/app/api/cron/send-emails/route.ts:85-110 | one entry per user, in user order, each that user's email and send outcome |
| Dispatch.AttemptMeaning | src/app/api/cron/send-emails/route.ts:88-98 | a user's entry succeeds iff there are jobs and the transport delivered that user's email; it fails iff it carries an error |
| Dispatch.Attempt | src/app/api/cron/send-emails/route.ts:88-92 | one user's send: `sendJobAlertEmail` of the loaded jobs to that user's email and name; AttemptMeaning states when it succeeds |
| Dispatch.SuccessCount | src/app/api/cron/send-emails/route.ts:100-106 | the successes are at most the entries |
| Dispatch.SuccessCountZero | src/app/api/cron/send-emails/route.ts:113 | no success iff every entry failed |
| Dispatch.SuccessCountAll | src/app/api/cron/send-emails/route.ts:100-106 | all succeeded iff every entry succeeded |
| Dispatch.SendToEachUser | src/app/api/cron/send-emails/route.ts:80-110 | the loop yields the per-user results, successCount is their successes, and successes + failures == users |
| Dispatch.SendAndMark | src/app/api/cron/send-emails/route.ts:80-128 | the loop as above, then the loaded jobs are marked emailed iff a send succeeded; users and ids unchanged |
| Dispatch.AllDelivered | src/app/api/cron/send-emails/route.ts:85-110 | when every email is delivered and there are jobs, every user counts as a success |
| Dispatch.NoneDelivered | src/app/api/cron/send-emails/route.ts:113 | when nothing is delivered, no user counts as a success |
| Dispatch.MarkingSelection | src/app/api/cron/send-emails/route.ts:113-125 | marking the loaded un-emailed jobs flags each of them, changes nothing else, and leaves no un-emailed job |
| Dispatch.MarkingIsLocal | src/app/api/send-email/route.ts:84-93 | rows outside the marked set are untouched, applied and url never change, and no emailed row is unmarked |
| Dispatch.MarkingStats | src/app/api/send-email/route.ts:84-93 | after marking the digest, total, applied and recent are unchanged and every job counts as emailed |
| CronSendEmails.GateRefusesWrongHeader | src/app/api/cron/send-emails/route.ts:20-29 | with a secret set, the call is let through iff the header is exactly "Bearer " + secret; a missing header or the bare secret is refused |
| CronSendEmails.CronAuthorized | src/app/api/cron/send-emails/route.ts:20-23 | the gate: open when CRON_SECRET is unset or empty, otherwise only for the header "Bearer " + secret; GateRefusesWrongHeader states it |
| CronSendEmails.StatusCode | src/app/api/cron/send-emails/route.ts:23-29 | 401 for the refused gate, 200 for every other reply |
| CronSendEmails.CronSendEmails | src/app/api/cron/send-emails/route.ts:15-150 | 401 with nothing changed on a bad header; "no users" and "no new jobs" replies with their counts and nothing changed; otherwise the digest is the un-emailed jobs newest first, one result per user, sent + failed == users, and the jobs are marked iff a send succeeded |
| CronSendEmails.CronStatusCheck | src/app/api/cron/send-emails/route.ts:169-206 | read-only; the counts are those of the store; readyToSend iff un-emailed > 0 and users > 0; the last job added is a row with the latest createdAt, with its postedAt |
| CronSendEmails.NothingReadyAfterSuccessfulRun | src/app/api/cron/send-emails/route.ts:113-125 | after a run with a success no un-emailed job is left |
| CronSendEmails.AllFailedKeepsBacklog | src/app/api/cron/send-emails/route.ts:85-125 | when every user's result in the run's list is a failure, the success count is zero, so the store and the backlog are unchanged |
| CronSendEmails.TwoUsersThreeJobs | src/app/api/cron/send-emails/route.ts:85-138 | two users, three jobs, a transport that always delivers: two sent, none failed, all three marked |
| SendEmail.SendEmail | src/app/api/send-email/route.ts:6-111 | 404 iff there are no users, with nothing changed; no un-emailed jobs gives a "no new jobs" reply with nothing changed; otherwise one result per user, successful + failed == users, and the jobs are marked iff a send succeeded |
| SendEmail.StatusCode | src/app/api/send-email/route.ts:18-24 | 404 when there are no users, 200 for every other reply |
| SendEmail.EmailStatusCheck | src/app/api/send-email/route.ts:126-146 | read-only; readyToSend iff un-emailed > 0 and users > 0 |
| SendEmail.ReadyMeansNonEmptyDigest | src/app/api/send-email/route.ts:39-49 | the digest `POST` loads is non-empty iff the status count of un-emailed jobs is positive |
| TestSendEmail.ModeOf | src/app/api/test/send-email/route.ts:16 | a missing mode is preview; a mode is unknown iff it is none of the four names |
| TestSendEmail.UnknownModeError | src/app/api/test/send-email/route.ts:183-187 | the error starts with "Unknown test mode: " and names the mode |
| TestSendEmail.SampleJobsFacts | src/app/api/test/send-email/route.ts:21-58 | three samples, distinct urls, newest first, in the target area, none applied or emailed |
| TestSendEmail.SampleJobs | src/app/api/test/send-email/route.ts:21-58 | the three sample jobs, posted now, a day and two days ago, in the target area; SampleJobsFacts states their properties |
| TestSendEmail.StatusCode | src/app/api/test/send-email/route.ts:75-190 | 400 for a missing address or an unknown mode, 404 when real-data finds no jobs, 200 otherwise |
| TestSendEmail.PreviewRunReply | src/app/api/test/send-email/route.ts:61-71 | the preview reply holds the template of the samples for "Test User" and the sample count; the document holds the count sentence, the escaped "Test User" and every sample's row |
| TestSendEmail.SampleSendReply | src/app/api/test/send-email/route.ts:73-98 | the reply carries the send result for the samples to the test address and the sample count; with samples, the email goes to exactly that address with the count subject, succeeds iff delivered and carries an error iff it failed; without samples it fails with "No jobs to send" |
| TestSendEmail.RealDataSend | src/app/api/test/send-email/route.ts:100-159 | at most 10 most recently posted un-emailed jobs; 404 when there are none; the loaded jobs are marked iff sendReal and the send succeeded, and markedAsEmailed says the same |
| TestSendEmail.StatusReport | src/app/api/test/send-email/route.ts:161-181 | read-only; at most the first 5 un-emailed jobs, the total count, systemReady iff users > 0 and un-emailed > 0 |
| TestSendEmail.TestSendEmailPost | src/app/api/test/send-email/route.ts:13-200 | the mode switch: each mode's answer; 400 without testEmail for test-send and real-data; 400 naming an unknown mode; only real-data changes the store |
| TestSendEmail.PreviewShowsSamples | src/app/api/test/send-email/route.ts:61-71 | the preview shows the count sentence, the escaped "Test User" and every sample's row |
| TestSendEmail.TestSendOutcome | src/app/api/test/send-email/route.ts:84-98 | the sample email goes to exactly the test address with the subject for the count; success iff it was delivered; failure iff an error is reported |
| TestSendEmail.RealDataBounded | src/app/api/test/send-email/route.ts:110-118 | the jobs loaded for real-data are at most 10, un-emailed, and stored |
| TestSendEmail.RealDataMarksOnlySent | src/app/api/test/send-email/route.ts:136-148 | marking flags exactly the loaded jobs and touches no other row |
| JobsApi.BuildWhere | src/app/api/jobs/route.ts:33-75 | a job matches the where clause built field by field iff the query accepts it |
| JobsApi.WhereMeansAccepts | src/app/api/jobs/route.ts:37-75 | each field's clause (search in title or company, location, applied overridden by appliedOnly, emailed, the date bounds) together means the query predicate |
| JobsApi.SingleDayRange | src/app/api/jobs/route.ts:64-75 | dateFrom == dateTo keeps exactly the jobs posted within that one day: the end date is inclusive |
| JobsApi.Window | src/app/api/jobs/route.ts:88-89 | skip then take: the rows from position skip on, at most take of them, in order |
| JobsApi.TotalPages | src/app/api/jobs/route.ts:94 | ceil(total / limit): for a positive limit the least page count whose pages hold total rows, for a negative limit the ceiling bracket with the sign flipped; no number for limit 0 |
| JobsApi.PageStep | src/app/api/jobs/route.ts:78-89 | the page at skip m continues the first m rows |
| JobsApi.PagesArePrefix | src/app/api/jobs/route.ts:78-89 | pages 1..n together are the first n * limit rows of the listing |
| JobsApi.PagesCoverListing | src/app/api/jobs/route.ts:78-94 | the pages 1..totalPages together are exactly the listing |
| JobsApi.PageBeyondLastIsEmpty | src/app/api/jobs/route.ts:78-94 | a page is empty iff its number exceeds totalPages |
| JobsApi.JobsGet | src/app/api/jobs/route.ts:6-123 | 401 without a token or with a token that does not verify; otherwise the page of the ordered matching rows at skip (page-1)*limit, the count of matches, the page and totalPages; page 1 and limit 20 by default |
| JobsApi.ReplyStatus | src/app/api/jobs/route.ts:6-123 | 401 for a missing or unverified token, 500 when the store call fails, 200 for a listing |
| JobsApi.TotalCountsListing | src/app/api/jobs/route.ts:81-94 | with the total from `count`, the pages 1..totalPages cover the whole listing |
| JobsApi.JobsPost | src/app/api/jobs/route.ts:126-201 | 401 without a verified token; 400 when title, company, location or url is missing; 409 with nothing stored for a known url; otherwise exactly one row added, with the invariant kept |
| JobsApi.CreateStatus | src/app/api/jobs/route.ts:126-201 | 401 for a missing or unverified token, 400 for missing fields, 409 for a known url, 201 for a created row |
| JobsApi.Complete | src/app/api/jobs/route.ts:144-149 | the body passes validation iff title, company, location and url are all present and non-empty |
| JobsApi.ManualJobData | src/app/api/jobs/route.ts:164-172 | the `create` data of a valid body: its fields, posted now, source "manual" by default, flags false under the assumed schema defaults; ManualInsertFacts states the stored row |
| JobsApi.ManualInsertFacts | src/app/api/jobs/route.ts:141-173 | the manual row is new, has the given url, gets source "manual" by default, and leaves the other rows unchanged; it is neither applied nor emailed under the assumed schema defaults (see Left out) |
| Middleware.Guard | src/middleware.ts:4-37 | "/" always proceeds; "/login" proceeds iff not signed in, else goes to "/dashboard"; any other page proceeds iff signed in, else goes to "/login"; a redirect never targets the page itself |
| Middleware.NoTokenGoesToLogin | src/middleware.ts:26-28 | without a token, or with an empty one, every other page goes to "/login" |
| Middleware.RedirectSettles | src/middleware.ts:4-37 | the page a redirect leads to is let through with the same cookie, so the guard never loops |
| JobCard.DiffInHours | src/app/components/jobCard.tsx:23 | the whole hours elapsed, rounded down (negative for a future date) |
| JobCard.FormatPostedDate | src/app/components/jobCard.tsx:20-31 | "h ago" iff less than a day has elapsed, "d ago" iff a day or more; negative for a future date; a day count never starts with '-' or '0' |
| JobCard.FloorUnique | src/app/components/jobCard.tsx:23 | the rounded-down quotient is the only whole number bracketing the difference |
| JobCard.HoursText | src/app/components/jobCard.tsx:25-26 | under a day the text is exactly the whole hours and "h ago" |
| JobCard.DaysText | src/app/components/jobCard.tsx:27-29 | from a day on the text is exactly the whole days, at least 1, and "d ago" |
| JobCard.Card.constructor | src/app/components/jobCard.tsx:12 | the card starts with the job's applied flag, false when absent, and has reported nothing |
| JobCard.Card.Toggle | src/app/components/jobCard.tsx:14-18 | the flag flips and the new value is reported with the job id when there is a callback |
| JobCard.Card.ToggleTwice | src/app/components/jobCard.tsx:14-18 | two toggles restore the flag; the parent hears the two new values in turn |
| DateRangePicker.StartOfDay | src/app/components/dateRangePicker.tsx:33-37 | the same day at 00:00:00.000, never after the moment |
| DateRangePicker.EndOfDay | src/app/components/dateRangePicker.tsx:39-43 | the same day at 23:59:59.999, never before the moment |
| DateRangePicker.InitialOption | src/app/components/dateRangePicker.tsx:13 | "today" iff defaultToToday, otherwise "last7days" |
| DateRangePicker.GetDateRange | src/app/components/dateRangePicker.tsx:21-61 | presets start at the start of today, yesterday, 7 or 30 days back and end at the end of today (yesterday for "yesterday"), with from <= to; custom bounds are undefined iff their string is empty, otherwise snapped to the start or end of their day |
| DateRangePicker.PresetCoversWholeDays | src/app/components/dateRangePicker.tsx:45-53 | a moment lies in a preset range iff its day lies between the preset's first and last day |
| DateRangePicker.PresetsAroundNow | src/app/components/dateRangePicker.tsx:45-53 | now lies in every preset range except "yesterday", which ends before now |
| DateRangePicker.PresetsNest | src/app/components/dateRangePicker.tsx:45-53 | today and yesterday lie within the last 7 days, which lie within the last 30 |
| DateRangePicker.CustomChangeEmission | src/app/components/dateRangePicker.tsx:69-74 | a custom-date change reports a range iff "custom" is selected, and then the custom range |
| DateRangePicker.StaleFromDate | src/app/components/dateRangePicker.tsx:118-121 | choosing a from date with the old field empty reports a range without from, while the new inputs give from as the start of the day `parseDate` gives for the chosen value |
| DateRangePicker.StaleToDate | src/app/components/dateRangePicker.tsx:133-136 | choosing a to date with the old field empty reports a range without to, while the new inputs give to as the end of the day `parseDate` gives for the chosen value |
| DateRangePicker.FirstFromDateScenario | src/app/components/dateRangePicker.tsx:118-121 | on a picker switched to "custom", the first from date is reported as undefined by the handler as written and as the start of its day by the corrected one |
| DateRangePicker.FirstToDateScenario | src/app/components/dateRangePicker.tsx:133-136 | the same for the first to date, reported as undefined as written and as the end of its day when corrected |
| DateRangePicker.Picker.constructor | src/app/components/dateRangePicker.tsx:76-80 | the picker starts on the initial option with empty custom fields and reports that option's range once |
| DateRangePicker.Picker.HandleOptionChange | src/app/components/dateRangePicker.tsx:63-67 | the option is selected and its range over the current fields is reported |
| DateRangePicker.Picker.HandleCustomDateChange | src/app/components/dateRangePicker.tsx:69-74 | the custom range is reported iff "custom" is selected; the state is unchanged |
| DateRangePicker.Picker.ChangeFromDateAsWritten | src/app/components/dateRangePicker.tsx:118-121 | the field is updated but the range reported is built from the fields before the change |
| DateRangePicker.Picker.ChangeToDateAsWritten | src/app/components/dateRangePicker.tsx:133-136 | as above for the to date |
| DateRangePicker.Picker.ChangeFromDate | src/app/components/dateRangePicker.tsx:118-121 | the field is updated and, when "custom" is selected, the last range reported is the custom range of the new fields |
| DateRangePicker.Picker.ChangeToDate | src/app/components/dateRangePicker.tsx:133-136 | as above for the to date |
| Strings.LowerIdempotent | src/app/api/jobs/route.ts:23 | lower-casing the already lower-cased search term changes nothing, so the insensitive match sees the term as given |
| Strings.Lower | src/app/api/jobs/route.ts:23 | `toLowerCase` character by character: same length, each character lowered (ASCII and Latin-1 capitals) |
| Strings.Truthy | src/app/api/jobs/route.ts:144 | JavaScript truthiness of an optional string, present and non-empty, used by every `\|\|` default and `if (x)` test |
| Strings.LowerEmpty | src/app/api/jobs/route.ts:37 | the lower-cased term is empty iff the term is, so `if (search)` tests the raw parameter |
| Strings.DecimalRoundTrip | src/lib/emailService.ts:73 | the decimal text of a count reads back as that count |
| Strings.SignedDecimalRoundTrip | src/app/components/jobCard.tsx:26 | the decimal text of a signed hour count, with its '-', reads back as that number |
| Strings.NatToDecimalInjective | src/lib/emailService.ts:120-122 | different counts have different decimal texts |

## Left out

- HTTP plumbing: requests, JSON bodies, cookies, headers and `NextResponse` are replaced by
  parameters and reply datatypes with their status codes. The `try/catch` blocks that map a
  database or runtime error to 500 are left out, because the modelled store does not throw.
  The exceptions are the store failures in the ingest loop and the transport throw, which
  are modelled.
- `verifyAuth` is a boolean oracle, because src/lib/auth is not part of this model. A
  rejected token is modelled as the "Invalid or expired token" error (401). Any other error
  it might throw, which the routes answer with 500, is not modelled.
- The JobTech request (axios, keywords, region, timeout) is an input. Its failure is `None`,
  which gives "Failed to fetch jobs from JobTech API".
- `publication_date` is taken as an already-parsed instant.
- A store error inside `getJobStats`, and the "Failed to get job statistics" error it leads
  to, are not modelled.
- The Resend client is the transport oracle. Its configuration (the API key in
  src/lib/resend.ts) is left out; the sender address is kept.
- `formatDate` (`Intl.DateTimeFormat`) is a parameter of the template.
- The template's inline styles, header, emoji, footer text and `getFullYear()` copyright
  year are abbreviated to fixed markup. The dynamic parts are exact: the escaped name, the
  count and noun, the rows and the escaped fields.
- The 100 ms delay between sends and the console logging are left out; they have no effect
  on the result.
- The `timestamp` fields of the cron replies are left out, because they are clock output.
- The human-readable `message` texts of the replies are left out where they only repeat the
  success flag.
- TestSendEmail.TestSendEmailPost: takes the sample list as an argument. The route's own
  list is `SampleJobs(now)`, whose facts are proved separately. The string ids "test-1".."test-3"
  are modelled as 1..3.
- `dateFrom` and `dateTo` arrive as parsed instants. A string that `new Date` cannot parse
  gives an Invalid Date, on which the database call fails and the route answers 500
  "Failed to fetch jobs"; that path is not modelled.
- The database schema is not part of this model. `create` in `POST /api/jobs` passes
  neither `applied` nor `emailed`, and the model assumes both default to false and
  `createdAt` to the time of the call. The same defaults are assumed for the id and
  `createdAt` of every created row.
- TestSendEmail.StatusReport: returns whole `User` and `Job` records. The route selects only
  `email` and `name` of a user and `id`, `title`, `company` and `postedAt` of a job.
- TestSendEmail.ModeOf: the body's mode is an optional string. An explicit JSON `null`,
  which the `mode = 'preview'` default does not replace and which gives
  "Unknown test mode: null", is not modelled.
- The `GET` of the development endpoint (src/app/api/test/send-email/route.ts:203-254) returns
  a fixed documentation object, with no store access and no logic, and is not modelled.
- `parseInt` on `page` and `limit` is modelled as an optional integer. Garbage that would
  give NaN is not modelled.
- JobsApi.Window: for a negative `take`, Prisma returns rows from the end of the list. The
  model only bounds the count and keeps the rows from the listing.
- A negative `skip` is modelled as rejected by the store (500).
- Dates in the picker and the jobs API are a day number plus milliseconds within the day.
  Local time zones and the daylight-saving behaviour of `setDate`/`setHours` are left out.
- `new Date(string)` in the picker is the `parseDate` oracle.
- `formatDateForInput` and the markup of the picker are not modelled.
- `Strings.Lower` folds ASCII and Latin-1 capitals. Full Unicode case folding, as the
  database performs it for `mode: 'insensitive'`, is not modelled.
- The check-then-insert race between two overlapping runs is left out. The model is one
  sequential run; a unique violation is the failure set of the ingest loop.
- The middleware `matcher`, which keeps the guard off `/api`, `_next` and file paths, is not
  modelled. `Guard` is the decision for a page the matcher lets in.
- The thin wrappers over `fetchJobsFromJobTech` are not part of this model:
  src/app/api/fetch-jobs/route.ts, src/app/api/test/fetch-jobs/route.ts and
  src/app/api/cron/fetch-jobs/route.ts. Their gates are the ones modelled for the cron
  and jobs routes.
- The login route (password hashing and token signing), the applied-flag route and the
  seed script are not part of this model.
- The purely presentational components are not part of this model: the job list, modal,
  button, spinner, input field, layouts, user context and the search input with its
  debounce.

## Findings

| source | as written | input that shows it | evidently intended | confidence | as-written member | corrected member |
|---|---|---|---|---|---|---|
| src/app/components/dateRangePicker.tsx:118-121 | the input handler stores the new date and schedules `handleCustomDateChange` from the current render, so the range it reports is built from the fields as they were before the change | "custom" selected, From field empty, the user picks a from date: the range reported has no `from` | report the range of the fields after the change | not executed | DateRangePicker.Picker.ChangeFromDateAsWritten, shown by DateRangePicker.FirstFromDateScenario | DateRangePicker.Picker.ChangeFromDate |
| src/app/components/dateRangePicker.tsx:133-136 | the same stale read for the to date | "custom" selected, To field empty, the user picks a to date: the range reported has no `to` | report the range of the fields after the change | not executed | DateRangePicker.Picker.ChangeToDateAsWritten, shown by DateRangePicker.FirstToDateScenario | DateRangePicker.Picker.ChangeToDate |
