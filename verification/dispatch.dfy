/**
 * The digest dispatch shared by src/app/api/cron/send-emails/route.ts and
 * src/app/api/send-email/route.ts: one send attempt per user, in order, with the full
 * list of un-emailed jobs, counting successes and failures, and afterwards the bulk
 * mark of exactly the loaded jobs. The routes differ only in their gates and replies.
 */
module Dispatch {
  import opened Wrappers
  import opened Store
  import opened EmailService
  import JobService

  /** One element of `emailResults`. */
  datatype EmailResultEntry = EmailResultEntry(user: string, success: bool, error: Option<string>)

  /** The entry recorded for one user and the answer of that user's send. */
  function Entry(user: User, r: SendResult): EmailResultEntry {
    EmailResultEntry(user.email, r.success, r.error)
  }

  /** One user's send: the digest of `jobs`, addressed to that user. */
  function Attempt(jobs: seq<Job>, formatDate: Instant -> string, transport: Email -> TransportOutcome)
    : User -> SendResult
  {
    (u: User) => SendJobAlertEmail(EmailJobData(jobs, u.email, u.name), formatDate, transport)
  }

  /** The results of the loop over `users`, in order, where `send` answers one user's send. */
  function DigestResults(users: seq<User>, send: User -> SendResult): (rs: seq<EmailResultEntry>)
    ensures |rs| == |users|
    ensures forall i :: 0 <= i < |users| ==> rs[i] == Entry(users[i], send(users[i]))
    decreases |users|
  {
    if users == [] then []
    else
      var n := |users| - 1;
      DigestResults(users[..n], send) + [Entry(users[n], send(users[n]))]
  }

  /**
   * One user's attempt succeeds exactly when there are jobs and the transport accepts
   * the digest addressed to that user, and carries an error text exactly when it fails.
   */
  lemma AttemptMeaning(jobs: seq<Job>, formatDate: Instant -> string,
                       transport: Email -> TransportOutcome, u: User)
    ensures var r := Attempt(jobs, formatDate, transport)(u);
      var data := EmailJobData(jobs, u.email, u.name);
      && (r.success <==> |jobs| > 0 && transport(AlertEmail(data, formatDate).value).Delivered?)
      && (!r.success <==> r.error.Some?)
  {
    FailureHasMessage(EmailJobData(jobs, u.email, u.name), formatDate, transport);
  }

  /** `successCount`: how many entries report success. */
  function SuccessCount(rs: seq<EmailResultEntry>): (c: nat)
    ensures c <= |rs|
    decreases |rs|
  {
    if rs == [] then 0
    else
      var n := |rs| - 1;
      SuccessCount(rs[..n]) + (if rs[n].success then 1 else 0)
  }

  /** No success is counted exactly when every entry failed. */
  lemma {:induction false} SuccessCountZero(rs: seq<EmailResultEntry>)
    ensures SuccessCount(rs) == 0 <==> forall i :: 0 <= i < |rs| ==> !rs[i].success
    decreases |rs|
  {
    if rs != [] {
      var n := |rs| - 1;
      SuccessCountZero(rs[..n]);
      assert forall i :: 0 <= i < n ==> rs[..n][i] == rs[i];
    }
  }

  /** Every entry succeeded exactly when all of them are counted. */
  lemma {:induction false} SuccessCountAll(rs: seq<EmailResultEntry>)
    ensures SuccessCount(rs) == |rs| <==> forall i :: 0 <= i < |rs| ==> rs[i].success
    decreases |rs|
  {
    if rs != [] {
      var n := |rs| - 1;
      SuccessCountAll(rs[..n]);
      assert forall i :: 0 <= i < n ==> rs[..n][i] == rs[i];
    }
  }

  /**
   * The `for (const user of users)` loop: one attempt per user, each answer pushed in
   * order, successes and failures counted. `send` is one user's `sendJobAlertEmail`
   * call, `Attempt(jobs, formatDate, transport)` in both dispatchers.
   */
  method SendToEachUser(users: seq<User>, send: User -> SendResult)
    returns (results: seq<EmailResultEntry>, successCount: nat, errorCount: nat)
    ensures results == DigestResults(users, send)
    ensures successCount == SuccessCount(results)
    ensures successCount + errorCount == |users|
  {
    results := [];
    successCount := 0;
    errorCount := 0;
    for i := 0 to |users|
      invariant results == DigestResults(users[..i], send)
      invariant successCount == SuccessCount(results)
      invariant successCount + errorCount == i
    {
      assert users[..i + 1][..i] == users[..i];
      var user := users[i];
      var emailResult := send(user);
      var entry := EmailResultEntry(user.email, emailResult.success, emailResult.error);
      ghost var before := results;
      results := results + [entry];
      assert results[..i] == before;
      if emailResult.success {
        successCount := successCount + 1;
      } else {
        errorCount := errorCount + 1;
      }
    }
    assert users[..|users|] == users;
  }

  /**
   * The tail both dispatchers share: send the loaded jobs to every user, then, if at
   * least one send succeeded, `updateMany` exactly the loaded ids to emailed.
   */
  method SendAndMark(db: Database, digest: seq<Job>, send: User -> SendResult)
    returns (results: seq<EmailResultEntry>, successCount: nat, errorCount: nat)
    requires db.Valid()
    modifies db
    ensures db.Valid() && db.users == old(db.users) && db.nextId == old(db.nextId)
    ensures results == DigestResults(db.users, send)
    ensures successCount == SuccessCount(results) && successCount + errorCount == |db.users|
    ensures db.jobs == AfterDispatch(old(db.jobs), digest, successCount)
  {
    results, successCount, errorCount := SendToEachUser(db.users, send);
    if successCount > 0 {
      db.UpdateManyEmailed(IdsOf(digest));
    }
  }

  /** A transport that accepts every message makes every user's send succeed. */
  lemma AllDelivered(users: seq<User>, jobs: seq<Job>, formatDate: Instant -> string,
                     transport: Email -> TransportOutcome)
    requires |jobs| > 0
    requires forall e :: transport(e) == Delivered
    ensures SuccessCount(DigestResults(users, Attempt(jobs, formatDate, transport))) == |users|
  {
    SuccessCountAll(DigestResults(users, Attempt(jobs, formatDate, transport)));
  }

  /** A transport that refuses every message leaves every user's send failed. */
  lemma NoneDelivered(users: seq<User>, jobs: seq<Job>, formatDate: Instant -> string,
                      transport: Email -> TransportOutcome)
    requires forall e :: !transport(e).Delivered?
    ensures SuccessCount(DigestResults(users, Attempt(jobs, formatDate, transport))) == 0
  {
    SuccessCountZero(DigestResults(users, Attempt(jobs, formatDate, transport)));
  }

  /** The store after the dispatch: marked only when some send succeeded. */
  function AfterDispatch(jobs: map<JobId, Job>, digest: seq<Job>, successes: nat): map<JobId, Job> {
    if successes > 0 then MarkedEmailed(jobs, IdsOf(digest)) else jobs
  }

  /**
   * Marking the full un-emailed selection: every row ends up emailed, no other column
   * of any row changes, and nothing un-emailed is left.
   */
  lemma MarkingSelection(jobs: map<JobId, Job>, digest: seq<Job>)
    requires IsSelection(digest, jobs, NotEmailed)
    ensures var after := MarkedEmailed(jobs, IdsOf(digest));
      && after.Keys == jobs.Keys
      && (forall k :: k in jobs ==> after[k] == jobs[k].(emailed := true))
      && MatchingIds(after, NotEmailed) == {}
  {
    var after := MarkedEmailed(jobs, IdsOf(digest));
    forall k | k in jobs ensures after[k] == jobs[k].(emailed := true) {
      assert after[k].emailed == (jobs[k].emailed || k in IdsOf(digest));
      if !jobs[k].emailed {
        assert k in MatchingIds(jobs, NotEmailed);
      }
      assert after[k].(emailed := jobs[k].emailed) == jobs[k];
    }
    assert forall k :: k in after ==> after[k].emailed;
  }

  /** Marking a selection leaves rows outside it untouched and never changes `applied`. */
  lemma MarkingIsLocal(jobs: map<JobId, Job>, ids: set<JobId>)
    ensures var after := MarkedEmailed(jobs, ids);
      && (forall k :: k in jobs && k !in ids ==> after[k] == jobs[k])
      && (forall k :: k in jobs ==> after[k].applied == jobs[k].applied && after[k].url == jobs[k].url)
      && (forall k :: k in jobs && jobs[k].emailed ==> after[k].emailed)
  {
    var after := MarkedEmailed(jobs, ids);
    forall k | k in jobs ensures after[k].applied == jobs[k].applied && after[k].url == jobs[k].url {
      assert after[k].(emailed := jobs[k].emailed) == jobs[k];
    }
    forall k | k in jobs && k !in ids ensures after[k] == jobs[k] {
      assert after[k].(emailed := jobs[k].emailed) == jobs[k];
    }
  }

  /** In the statistics, marking the whole backlog makes every job emailed and keeps the applied count. */
  lemma MarkingStats(jobs: map<JobId, Job>, digest: seq<Job>, now: Instant)
    requires IsSelection(digest, jobs, NotEmailed)
    ensures var before := JobService.GetJobStats(jobs, now);
      var after := JobService.GetJobStats(MarkedEmailed(jobs, IdsOf(digest)), now);
      after.total == before.total && after.emailed == after.total &&
      after.applied == before.applied && after.recent == before.recent
  {
    var after := MarkedEmailed(jobs, IdsOf(digest));
    MarkingSelection(jobs, digest);
    assert JobService.EmailedIds(after) == after.Keys;
    assert JobService.AppliedIds(after) == JobService.AppliedIds(jobs);
    assert JobService.CreatedSince(after, now - JobService.RecentWindowMs) ==
           JobService.CreatedSince(jobs, now - JobService.RecentWindowMs);
  }
}
