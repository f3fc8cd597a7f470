/**
 * The development endpoint (src/app/api/test/send-email/route.ts): one POST whose
 * `mode` picks a template preview, a send of three sample jobs, a send of up to ten
 * real un-emailed jobs with optional marking, or a read-only status report.
 */
module TestSendEmail {
  import opened Wrappers
  import opened Strings
  import opened Store
  import opened EmailService
  import JobService

  const PreviewMode: string := "preview"
  const TestSendMode: string := "test-send"
  const RealDataMode: string := "real-data"
  const StatusMode: string := "status"

  const TestUserName: string := "Test User"
  const TestSendNeedsEmail: string := "testEmail is required for test-send mode"
  const RealDataNeedsEmail: string := "testEmail is required for real-data mode"
  const NoRealJobsError: string := "No unemailed jobs found in database for testing"
  const UnknownModeOpening: string := "Unknown test mode: "
  const UnknownModeClosing: string := ". Available modes: preview, test-send, real-data, status"

  /** `take: 10` of the real-data query, and the five jobs the status report shows. */
  const RealDataTake: nat := 10
  const StatusShown: nat := 5

  /** The request body: `mode` and `testEmail` as sent (absent when missing), `sendReal` defaulting to false. */
  datatype TestRequest = TestRequest(mode: Option<string>, testEmail: Option<string>, sendReal: bool)

  /** The four cases of the mode `switch`, and its default. */
  datatype TestMode = PreviewRun | TestSendRun | RealDataRun | StatusRun | UnknownMode(name: string)

  /**
   * The `switch (mode)` with the destructuring default: a missing mode is 'preview';
   * any text other than the four mode names falls to the default branch.
   */
  function ModeOf(req: TestRequest): (m: TestMode)
    ensures req.mode.None? ==> m == PreviewRun
    ensures m.UnknownMode? <==>
      req.mode.Some? && req.mode.value !in [PreviewMode, TestSendMode, RealDataMode, StatusMode]
    ensures m.UnknownMode? ==> m.name == req.mode.value
  {
    match req.mode.GetOr(PreviewMode)
    case "preview" => PreviewRun
    case "test-send" => TestSendRun
    case "real-data" => RealDataRun
    case "status" => StatusRun
    case other => UnknownMode(other)
  }

  /**
   * The POST replies. The success-dependent message texts of `TestSend` and `RealData`
   * follow from `success` and are not repeated here.
   */
  datatype TestReply =
    | Preview(html: string, sampleJobCount: nat)
    | TestSend(success: bool, testEmail: string, sampleJobCount: nat, error: Option<string>)
    | RealData(success: bool, testEmail: string, realJobCount: nat, markedAsEmailed: bool,
               error: Option<string>)
    | Status(users: seq<User>, unEmailedJobs: seq<Job>, totalUnEmailedJobs: nat, systemReady: bool)
    | BadRequest(reason: string)
    | NotFound(reason: string)

  function StatusCode(reply: TestReply): nat {
    match reply
    case BadRequest(_) => 400
    case NotFound(_) => 404
    case _ => 200
  }

  /** The error of the default branch, which names the mode it did not recognise. */
  function UnknownModeError(mode: string): (e: string)
    ensures Contains(e, mode)
    ensures StartsWith(e, UnknownModeOpening)
  {
    ContainsPiece(UnknownModeOpening, mode, UnknownModeClosing);
    StartsWithConcat(UnknownModeOpening, mode + UnknownModeClosing);
    assert UnknownModeOpening + mode + UnknownModeClosing == UnknownModeOpening + (mode + UnknownModeClosing);
    UnknownModeOpening + mode + UnknownModeClosing
  }

  const SampleTitle1: string := "Senior Frontend Developer"
  const SampleTitle2: string := "Full Stack Developer (React/Node.js)"
  const SampleTitle3: string := "TypeScript Developer"
  const SampleCompany1: string := "Tech Innovators AB"
  const SampleCompany2: string := "Digital Solutions Inc"
  const SampleCompany3: string := "Modern Web Corp"
  const SampleUrl1: string := "https://example.com/job/1"
  const SampleUrl2: string := "https://example.com/job/2"
  const SampleUrl3: string := "https://example.com/job/3"

  /**
   * The three sample jobs: posted now, a day ago and two days ago, all created now,
   * in Göteborg, Mölndal and Göteborg, from "jobtech", neither applied nor emailed.
   * Their ids `test-1` .. `test-3` are written 1 .. 3 here.
   */
  function SampleJobs(now: Instant): seq<Job> {
    [Job(1, SampleTitle1, SampleCompany1, JobService.TargetLocations[0], now, SampleUrl1,
         JobService.JobTechSource, false, false, now),
     Job(2, SampleTitle2, SampleCompany2, JobService.TargetLocations[1], now - DayMs, SampleUrl2,
         JobService.JobTechSource, false, false, now),
     Job(3, SampleTitle3, SampleCompany3, JobService.TargetLocations[0], now - 2 * DayMs, SampleUrl3,
         JobService.JobTechSource, false, false, now)]
  }

  /** The samples look like a fresh ingest: distinct urls, newest first, in the target area, nothing marked. */
  lemma SampleJobsFacts(now: Instant)
    ensures var jobs := SampleJobs(now);
      && |jobs| == 3
      && DistinctIds(jobs) && NewestFirst(jobs)
      && (forall i, j :: 0 <= i < j < |jobs| ==> jobs[i].url != jobs[j].url)
      && (forall j :: j in jobs ==> !j.applied && !j.emailed && j.location in JobService.TargetLocations)
  {
    var jobs := SampleJobs(now);
    assert SampleUrl1[24] == '1' && SampleUrl2[24] == '2' && SampleUrl3[24] == '3';
    forall i, j | 0 <= i < j < |jobs| ensures ListedBefore(jobs[i], jobs[j]) {
    }
  }

  /** What `preview` answers: the template over the samples for the test user, and the sample count. */
  predicate PreviewAnswer(reply: TestReply, samples: seq<Job>, formatDate: Instant -> string) {
    reply == Preview(CreateJobEmailTemplate(samples, TestUserName, formatDate), |samples|)
  }

  /** What `test-send` answers once it has an address: the outcome of one send of the samples. */
  predicate TestSendAnswer(reply: TestReply, testEmail: string, samples: seq<Job>,
                           formatDate: Instant -> string, transport: Email -> TransportOutcome) {
    var r := SendJobAlertEmail(EmailJobData(samples, testEmail, TestUserName), formatDate, transport);
    reply == TestSend(r.success, testEmail, |samples|, r.error)
  }

  /**
   * What `real-data` answers and leaves in the store once it has an address: the ten
   * most recently posted un-emailed jobs, a 404 when there are none, otherwise one send
   * to `testEmail` and the mark of exactly those jobs when `sendReal` is set and the send
   * succeeded.
   */
  predicate RealDataAnswer(reply: TestReply, loaded: seq<Job>, before: map<JobId, Job>, after: map<JobId, Job>,
                           testEmail: string, sendReal: bool,
                           formatDate: Instant -> string, transport: Email -> TransportOutcome) {
    && IsTopPosted(loaded, before, NotEmailed, RealDataTake)
    && (|loaded| == 0 ==> reply == NotFound(NoRealJobsError) && after == before)
    && (|loaded| > 0 ==>
          var r := SendJobAlertEmail(EmailJobData(loaded, testEmail, TestUserName), formatDate, transport);
          && reply == RealData(r.success, testEmail, |loaded|, sendReal && r.success, r.error)
          && after == (if sendReal && r.success then MarkedEmailed(before, IdsOf(loaded)) else before))
  }

  /** What `status` answers: the users, the first five un-emailed jobs in store order, their total, and readiness. */
  predicate StatusAnswer(reply: TestReply, loaded: seq<Job>, jobs: map<JobId, Job>, users: seq<User>) {
    && IsSelection(loaded, jobs, NotEmailed)
    && reply.Status? && reply.users == users
    && reply.unEmailedJobs == (if |loaded| < StatusShown then loaded else loaded[..StatusShown])
    && reply.totalUnEmailedJobs == |MatchingIds(jobs, NotEmailed)|
    && (reply.systemReady <==> |users| > 0 && reply.totalUnEmailedJobs > 0)
  }

  /**
   * `preview`: the template over the samples for the test user, and the sample count. The
   * document holds the count sentence, the escaped "Test User" and every sample's row.
   */
  method PreviewRunReply(samples: seq<Job>, formatDate: Instant -> string) returns (reply: TestReply)
    ensures PreviewAnswer(reply, samples, formatDate)
    ensures reply.Preview? && reply.sampleJobCount == |samples|
    ensures Contains(reply.html, CountSentence(|samples|)) && ShowsEscaped(reply.html, TestUserName)
    ensures forall i :: 0 <= i < |samples| ==> Contains(reply.html, JobRow(samples[i], formatDate))
  {
    reply := Preview(CreateJobEmailTemplate(samples, TestUserName, formatDate), |samples|);
    TemplateShowsCount(samples, TestUserName, formatDate);
    TemplateShowsName(samples, TestUserName, formatDate);
    forall i | 0 <= i < |samples| ensures Contains(reply.html, JobRow(samples[i], formatDate)) {
      PreviewShowsSamples(reply, samples, formatDate, i);
    }
  }

  /**
   * `test-send` after its email check: one send of the samples, to exactly `testEmail` with
   * the count in the subject, a success exactly when the transport delivered it, and an
   * error exactly on failure.
   */
  method SampleSendReply(testEmail: string, samples: seq<Job>, formatDate: Instant -> string,
                         transport: Email -> TransportOutcome) returns (reply: TestReply)
    ensures TestSendAnswer(reply, testEmail, samples, formatDate, transport)
    ensures reply.TestSend? && reply.testEmail == testEmail && reply.sampleJobCount == |samples|
    ensures |samples| == 0 ==> !reply.success && reply.error == Some(NoJobsMessage)
    ensures |samples| > 0 ==>
      var sent := AlertEmail(EmailJobData(samples, testEmail, TestUserName), formatDate);
      && sent.Some? && sent.value.to == [testEmail] && sent.value.subject == Subject(|samples|)
      && (reply.success <==> transport(sent.value).Delivered?)
      && (!reply.success <==> reply.error.Some?)
  {
    var result := SendJobAlertEmail(EmailJobData(samples, testEmail, TestUserName), formatDate, transport);
    reply := TestSend(result.success, testEmail, |samples|, result.error);
    if |samples| > 0 {
      TestSendOutcome(reply, testEmail, samples, formatDate, transport);
    }
  }

  /** `real-data` after its email check. */
  method RealDataSend(db: Database, testEmail: string, sendReal: bool,
                      formatDate: Instant -> string, transport: Email -> TransportOutcome)
    returns (reply: TestReply, loaded: seq<Job>)
    requires db.Valid()
    modifies db
    ensures db.Valid() && db.users == old(db.users) && db.nextId == old(db.nextId)
    ensures RealDataAnswer(reply, loaded, old(db.jobs), db.jobs, testEmail, sendReal, formatDate, transport)
  {
    var listing := db.FindMany(NotEmailed);
    ListingPrefixIsTop(listing, db.jobs, NotEmailed, RealDataTake);
    loaded := if |listing| < RealDataTake then listing else listing[..RealDataTake];
    if |loaded| == 0 {
      return NotFound(NoRealJobsError), loaded;
    }
    var result := SendJobAlertEmail(EmailJobData(loaded, testEmail, TestUserName), formatDate, transport);
    if sendReal && result.success {
      db.UpdateManyEmailed(IdsOf(loaded));
    }
    reply := RealData(result.success, testEmail, |loaded|, sendReal && result.success, result.error);
  }

  /** `status`. */
  method StatusReport(db: Database) returns (reply: TestReply, loaded: seq<Job>)
    requires db.Valid()
    ensures StatusAnswer(reply, loaded, db.jobs, db.users)
  {
    loaded := db.FindMany(NotEmailed);
    SelectionSize(loaded, db.jobs, NotEmailed);
    var shown := if |loaded| < StatusShown then loaded else loaded[..StatusShown];
    reply := Status(db.users, shown, |loaded|, |db.users| > 0 && |loaded| > 0);
  }

  /**
   * `POST`. Only `real-data` with an email address touches the store; `loaded` is what
   * it or `status` read (empty for the other modes). `samples` is the fixture the
   * handler builds, `SampleJobs(now)`.
   */
  method TestSendEmailPost(db: Database, req: TestRequest, samples: seq<Job>,
                           formatDate: Instant -> string, transport: Email -> TransportOutcome)
    returns (reply: TestReply, loaded: seq<Job>)
    requires db.Valid()
    modifies db
    ensures db.Valid() && db.users == old(db.users) && db.nextId == old(db.nextId)
    ensures ModeOf(req) != RealDataRun ==> db.jobs == old(db.jobs)
    ensures ModeOf(req) == PreviewRun ==> PreviewAnswer(reply, samples, formatDate)
    ensures ModeOf(req) == TestSendRun && !Truthy(req.testEmail) ==> reply == BadRequest(TestSendNeedsEmail)
    ensures ModeOf(req) == TestSendRun && Truthy(req.testEmail) ==>
      TestSendAnswer(reply, req.testEmail.value, samples, formatDate, transport)
    ensures ModeOf(req) == RealDataRun && !Truthy(req.testEmail) ==>
      reply == BadRequest(RealDataNeedsEmail) && db.jobs == old(db.jobs)
    ensures ModeOf(req) == RealDataRun && Truthy(req.testEmail) ==>
      RealDataAnswer(reply, loaded, old(db.jobs), db.jobs, req.testEmail.value, req.sendReal, formatDate, transport)
    ensures ModeOf(req) == StatusRun ==> StatusAnswer(reply, loaded, db.jobs, db.users)
    ensures ModeOf(req).UnknownMode? ==> reply == BadRequest(UnknownModeError(ModeOf(req).name))
  {
    loaded := [];
    match ModeOf(req)
    case PreviewRun =>
      reply := PreviewRunReply(samples, formatDate);
    case TestSendRun =>
      if !Truthy(req.testEmail) {
        return BadRequest(TestSendNeedsEmail), loaded;
      }
      reply := SampleSendReply(req.testEmail.value, samples, formatDate, transport);
    case RealDataRun =>
      if !Truthy(req.testEmail) {
        return BadRequest(RealDataNeedsEmail), loaded;
      }
      reply, loaded := RealDataSend(db, req.testEmail.value, req.sendReal, formatDate, transport);
    case StatusRun =>
      reply, loaded := StatusReport(db);
    case UnknownMode(name) =>
      reply := BadRequest(UnknownModeError(name));
  }

  /** A preview states the sample count, greets the test user and shows a row for every sample. */
  lemma PreviewShowsSamples(reply: TestReply, samples: seq<Job>, formatDate: Instant -> string, i: nat)
    requires PreviewAnswer(reply, samples, formatDate) && i < |samples|
    ensures reply.Preview? && reply.sampleJobCount == |samples|
    ensures Contains(reply.html, CountSentence(|samples|)) && ShowsEscaped(reply.html, TestUserName)
    ensures Contains(reply.html, JobRow(samples[i], formatDate))
  {
    EveryJobHasARow(samples, TestUserName, formatDate, i);
  }

  /** A test send goes to the given address with the count in the subject; it fails exactly when an error is reported. */
  lemma TestSendOutcome(reply: TestReply, testEmail: string, samples: seq<Job>,
                        formatDate: Instant -> string, transport: Email -> TransportOutcome)
    requires TestSendAnswer(reply, testEmail, samples, formatDate, transport) && |samples| > 0
    ensures var sent := AlertEmail(EmailJobData(samples, testEmail, TestUserName), formatDate);
      && sent.Some? && sent.value.to == [testEmail] && sent.value.subject == Subject(|samples|)
      && (reply.success <==> transport(sent.value).Delivered?)
      && (!reply.success <==> reply.error.Some?)
  {
    FailureHasMessage(EmailJobData(samples, testEmail, TestUserName), formatDate, transport);
  }

  /** A real-data run never sends more than ten jobs, and never a job someone was already emailed about. */
  lemma RealDataBounded(loaded: seq<Job>, jobs: map<JobId, Job>)
    requires IsTopPosted(loaded, jobs, NotEmailed, RealDataTake)
    ensures |loaded| <= RealDataTake
    ensures forall r :: r in loaded ==> !r.emailed && r.id in jobs
  {
    forall r | r in loaded ensures !r.emailed && r.id in jobs {
      assert r.id in IdsOf(loaded);
    }
  }

  /** When marking happens it is confined to the jobs that were sent: nothing else changes. */
  lemma RealDataMarksOnlySent(jobs: map<JobId, Job>, loaded: seq<Job>)
    requires IsTopPosted(loaded, jobs, NotEmailed, RealDataTake)
    ensures var after := MarkedEmailed(jobs, IdsOf(loaded));
      && (forall k :: k in jobs && k !in IdsOf(loaded) ==> after[k] == jobs[k])
      && (forall r :: r in loaded ==> after[r.id] == r.(emailed := true))
  {
    var after := MarkedEmailed(jobs, IdsOf(loaded));
    forall k | k in jobs && k !in IdsOf(loaded) ensures after[k] == jobs[k] {
      assert after[k].(emailed := jobs[k].emailed) == jobs[k];
    }
    forall r | r in loaded ensures after[r.id] == r.(emailed := true) {
      assert r.id in IdsOf(loaded);
      assert after[r.id].(emailed := jobs[r.id].emailed) == jobs[r.id];
    }
  }
}
