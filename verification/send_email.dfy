/**
 * The manual dispatcher (src/app/api/send-email/route.ts): the same per-user loop and
 * conditional bulk mark as the cron dispatcher, without a gate, with a 404 when there
 * are no users, and a read-only readiness check.
 */
module SendEmail {
  import opened Store
  import opened EmailService
  import opened Dispatch

  const NoUsersError: string := "No users found"
  const NoNewJobsMessage: string := "No new jobs to email"
  const CompletedMessage: string := "Email process completed"
  const StatusMessage: string := "Email status check"

  /**
   * The POST reply: the 404 when no user exists, the 200 without sending when nothing is
   * un-emailed (its `jobCount` is 0), and the 200 of a run that sent mail, whose message
   * is `CompletedMessage`.
   */
  datatype SendEmailReply =
    | NoUsers
    | NoNewJobs(userCount: nat)
    | Completed(jobCount: nat, userCount: nat, successfulEmails: nat, failedEmails: nat,
                results: seq<EmailResultEntry>)

  function StatusCode(reply: SendEmailReply): nat {
    if reply.NoUsers? then 404 else 200
  }

  /** `POST`. `digest` is the list of un-emailed jobs the route loaded (empty when it stops first). */
  method SendEmail(db: Database, formatDate: Instant -> string, transport: Email -> TransportOutcome)
    returns (reply: SendEmailReply, digest: seq<Job>)
    requires db.Valid()
    modifies db
    ensures db.Valid() && db.users == old(db.users) && db.nextId == old(db.nextId)
    ensures |db.users| == 0 <==> reply == NoUsers
    ensures |db.users| == 0 ==> db.jobs == old(db.jobs)
    ensures |db.users| > 0 ==>
      IsSelection(digest, old(db.jobs), NotEmailed) && PostedNewestFirst(digest)
    ensures |db.users| > 0 && |digest| == 0 ==>
      reply == NoNewJobs(|db.users|) && db.jobs == old(db.jobs)
    ensures |db.users| > 0 && |digest| > 0 ==>
      && reply.Completed?
      && reply.results == DigestResults(db.users, Attempt(digest, formatDate, transport))
      && reply.jobCount == |digest| && reply.userCount == |db.users|
      && reply.successfulEmails == SuccessCount(reply.results)
      && reply.successfulEmails + reply.failedEmails == |db.users|
      && db.jobs == AfterDispatch(old(db.jobs), digest, reply.successfulEmails)
  {
    digest := [];
    var users := db.users;
    if |users| == 0 {
      return NoUsers, digest;
    }
    digest := db.FindMany(NotEmailed);
    ListingIsPostedNewestFirst(digest);
    if |digest| == 0 {
      return NoNewJobs(|users|), digest;
    }
    var results, successCount, errorCount := SendAndMark(db, digest, Attempt(digest, formatDate, transport));
    reply := Completed(|digest|, |users|, successCount, errorCount, results);
  }

  /** The GET reply, whose message is `StatusMessage`. */
  datatype EmailStatus = EmailStatus(unEmailedJobs: nat, totalUsers: nat, readyToSend: bool)

  /** `GET`: the two counts and whether a POST would send anything. */
  method EmailStatusCheck(db: Database) returns (status: EmailStatus)
    requires db.Valid()
    ensures status.unEmailedJobs == |MatchingIds(db.jobs, NotEmailed)|
    ensures status.totalUsers == |db.users|
    ensures status.readyToSend <==> status.unEmailedJobs > 0 && status.totalUsers > 0
  {
    var unEmailed := db.Count(NotEmailed);
    var users := |db.users|;
    status := EmailStatus(unEmailed, users, unEmailed > 0 && users > 0);
  }

  /**
   * `readyToSend` predicts the POST: with users present and nothing ready, the POST
   * finds an empty backlog; with something ready, it loads a non-empty one.
   */
  lemma ReadyMeansNonEmptyDigest(jobs: map<JobId, Job>, digest: seq<Job>)
    requires IsSelection(digest, jobs, NotEmailed)
    ensures |digest| > 0 <==> |MatchingIds(jobs, NotEmailed)| > 0
  {
    SelectionSize(digest, jobs, NotEmailed);
  }
}
