/**
 * The daily cron dispatcher (src/app/api/cron/send-emails/route.ts): the optional
 * cron-secret gate, the early exits for no users and no new jobs, one send per user,
 * the bulk mark when at least one send succeeded, and the read-only status check.
 */
module CronSendEmails {
  import opened Wrappers
  import opened Strings
  import opened Store
  import opened EmailService
  import opened Dispatch

  const NoUsersMessage: string := "No users found for notification"
  const NoNewJobsMessage: string := "No new jobs to email today"
  const CompletedMessage: string := "Daily email cron job completed"

  /**
   * The POST reply. `Unauthorized` is the 401; the two early exits are `Skipped`
   * summaries; a run that sent mail is `Completed`, whose message is `CompletedMessage`.
   * The summary's timestamp is not modelled.
   */
  datatype CronReply =
    | Unauthorized
    | Skipped(message: string, jobCount: nat, userCount: nat, emailsSent: nat)
    | Completed(jobCount: nat, userCount: nat, emailsSent: nat, emailsFailed: nat,
                results: seq<EmailResultEntry>)

  function StatusCode(reply: CronReply): nat {
    if reply.Unauthorized? then 401 else 200
  }

  /**
   * The gate: with CRON_SECRET unset or empty anyone may call; otherwise the
   * authorization header must be exactly "Bearer " followed by the secret.
   */
  predicate CronAuthorized(secret: Option<string>, authHeader: Option<string>) {
    !Truthy(secret) || authHeader == Some("Bearer " + secret.value)
  }

  /** With a secret configured, a missing header or any other header is refused. */
  lemma GateRefusesWrongHeader(secret: string, authHeader: Option<string>)
    requires secret != ""
    ensures CronAuthorized(Some(secret), authHeader) <==> authHeader == Some("Bearer " + secret)
    ensures !CronAuthorized(Some(secret), None) && !CronAuthorized(Some(secret), Some(secret))
  {
    assert |"Bearer " + secret| != |secret|;
  }

  /**
   * `POST`. `digest` is the list of un-emailed jobs the route loaded (empty when it stops
   * before the query); `formatDate` and `transport` stand for `Intl` and the mail client.
   */
  method CronSendEmails(db: Database, secret: Option<string>, authHeader: Option<string>,
                        formatDate: Instant -> string, transport: Email -> TransportOutcome)
    returns (reply: CronReply, digest: seq<Job>)
    requires db.Valid()
    modifies db
    ensures db.Valid() && db.users == old(db.users) && db.nextId == old(db.nextId)
    ensures !CronAuthorized(secret, authHeader) ==>
      reply == Unauthorized && db.jobs == old(db.jobs)
    ensures CronAuthorized(secret, authHeader) && |db.users| == 0 ==>
      reply == Skipped(NoUsersMessage, 0, 0, 0) && db.jobs == old(db.jobs)
    ensures CronAuthorized(secret, authHeader) && |db.users| > 0 ==>
      IsSelection(digest, old(db.jobs), NotEmailed) && PostedNewestFirst(digest)
    ensures CronAuthorized(secret, authHeader) && |db.users| > 0 && |digest| == 0 ==>
      reply == Skipped(NoNewJobsMessage, 0, |db.users|, 0) && db.jobs == old(db.jobs)
    ensures CronAuthorized(secret, authHeader) && |db.users| > 0 && |digest| > 0 ==>
      && reply.Completed?
      && reply.results == DigestResults(db.users, Attempt(digest, formatDate, transport))
      && reply.jobCount == |digest| && reply.userCount == |db.users|
      && reply.emailsSent == SuccessCount(reply.results)
      && reply.emailsSent + reply.emailsFailed == |db.users|
      && db.jobs == AfterDispatch(old(db.jobs), digest, reply.emailsSent)
  {
    digest := [];
    if !CronAuthorized(secret, authHeader) {
      return Unauthorized, digest;
    }
    var users := db.users;
    if |users| == 0 {
      return Skipped(NoUsersMessage, 0, 0, 0), digest;
    }
    digest := db.FindMany(NotEmailed);
    ListingIsPostedNewestFirst(digest);
    if |digest| == 0 {
      return Skipped(NoNewJobsMessage, 0, |users|, 0), digest;
    }
    var results, successCount, errorCount := SendAndMark(db, digest, Attempt(digest, formatDate, transport));
    reply := Completed(|digest|, |users|, successCount, errorCount, results);
  }

  /** The GET status report. */
  datatype CronStatus = CronStatus(unEmailedJobs: nat, totalUsers: nat, totalJobs: nat, readyToSend: bool,
                                   lastJobAdded: Option<Instant>, lastJobPosted: Option<Instant>)

  /** `GET`: counts, readiness, and the creation and posting time of the row created last. */
  method CronStatusCheck(db: Database) returns (status: CronStatus)
    requires db.Valid()
    ensures status.unEmailedJobs == |MatchingIds(db.jobs, NotEmailed)|
    ensures status.totalUsers == |db.users| && status.totalJobs == |db.jobs|
    ensures status.readyToSend <==> status.unEmailedJobs > 0 && status.totalUsers > 0
    ensures status.lastJobAdded.None? <==> db.jobs == map[]
    ensures status.lastJobAdded.Some? ==>
      && status.lastJobPosted.Some?
      && (exists k :: k in db.jobs && db.jobs[k].createdAt == status.lastJobAdded.value &&
                      db.jobs[k].postedAt == status.lastJobPosted.value)
      && (forall k :: k in db.jobs ==> db.jobs[k].createdAt <= status.lastJobAdded.value)
  {
    var unEmailed := db.Count(NotEmailed);
    var users := |db.users|;
    var total := db.Count(Everything);
    assert MatchingIds(db.jobs, Everything) == db.jobs.Keys;
    var lastJob := db.FindLatestCreated();
    var added: Option<Instant> := None;
    var posted: Option<Instant> := None;
    if lastJob.Some? {
      added := Some(lastJob.value.createdAt);
      posted := Some(lastJob.value.postedAt);
    }
    status := CronStatus(unEmailed, users, total, unEmailed > 0 && users > 0, added, posted);
  }

  /** After a completed run in which some send succeeded, the status check reports nothing to send. */
  lemma NothingReadyAfterSuccessfulRun(jobs: map<JobId, Job>, digest: seq<Job>, successes: nat)
    requires IsSelection(digest, jobs, NotEmailed) && successes > 0
    ensures MatchingIds(AfterDispatch(jobs, digest, successes), NotEmailed) == {}
  {
    MarkingSelection(jobs, digest);
  }

  /** If every send of the run fails, the store is untouched and every un-emailed job is still un-emailed. */
  lemma AllFailedKeepsBacklog(jobs: map<JobId, Job>, digest: seq<Job>, users: seq<User>,
                              formatDate: Instant -> string, transport: Email -> TransportOutcome)
    requires var results := DigestResults(users, Attempt(digest, formatDate, transport));
      forall i :: 0 <= i < |results| ==> !results[i].success
    ensures var results := DigestResults(users, Attempt(digest, formatDate, transport));
      && AfterDispatch(jobs, digest, SuccessCount(results)) == jobs
      && MatchingIds(AfterDispatch(jobs, digest, SuccessCount(results)), NotEmailed) == MatchingIds(jobs, NotEmailed)
  {
    SuccessCountZero(DigestResults(users, Attempt(digest, formatDate, transport)));
  }

  /** Two users, three un-emailed jobs, both sends accepted: two sent, none failed, all three marked. */
  lemma TwoUsersThreeJobs(jobs: map<JobId, Job>, digest: seq<Job>, users: seq<User>,
                          formatDate: Instant -> string, transport: Email -> TransportOutcome)
    requires |users| == 2 && |digest| == 3 && IsSelection(digest, jobs, NotEmailed)
    requires forall e :: transport(e) == Delivered
    ensures var results := DigestResults(users, Attempt(digest, formatDate, transport));
      && SuccessCount(results) == 2 && |users| - SuccessCount(results) == 0
      && (forall r :: r in digest ==> AfterDispatch(jobs, digest, SuccessCount(results))[r.id].emailed)
  {
    AllDelivered(users, digest, formatDate, transport);
    MarkingSelection(jobs, digest);
  }
}
