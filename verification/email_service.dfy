/**
 * The job-alert email (src/lib/emailService.ts): HTML escaping of every user-supplied
 * field, the digest template with one row per job and its count sentence, the subject
 * line, and the mapping of the mail transport's answer onto `{ success, error }`.
 * The transport and the date formatter are parameters.
 */
module EmailService {
  import opened Wrappers
  import opened Strings
  import opened Store

  /** The characters `escapeHtml` rewrites besides `&`. */
  predicate IsMarkup(c: char) {
    c == '<' || c == '>' || c == '"' || c == '\''
  }

  predicate IsSpecial(c: char) {
    c == '&' || IsMarkup(c)
  }

  /** One of the five entities `escapeHtml` produces starts `t`. */
  predicate BeginsEntity(t: string) {
    StartsWith(t, "&amp;") || StartsWith(t, "&lt;") || StartsWith(t, "&gt;") ||
    StartsWith(t, "&quot;") || StartsWith(t, "&#39;")
  }

  /** The lookup map: each special character becomes its entity, any other stays. */
  function EscapeChar(c: char): (e: string)
    ensures IsSpecial(c) ==> |e| > 1 && e[0] == '&'
    ensures !IsSpecial(c) ==> e == [c]
  {
    match c
    case '&' => "&amp;"
    case '<' => "&lt;"
    case '>' => "&gt;"
    case '"' => "&quot;"
    case '\'' => "&#39;"
    case _ => [c]
  }

  /** `text.replace(/[&<>"']/g, m => map[m])`, one character at a time from the left. */
  function EscapeHtml(s: string): (r: string)
    ensures |r| >= |s|
    decreases |s|
  {
    if s == [] then [] else EscapeChar(s[0]) + EscapeHtml(s[1..])
  }

  /** Escaping distributes over concatenation. */
  lemma {:induction false} EscapeHtmlAppend(a: string, b: string)
    ensures EscapeHtml(a + b) == EscapeHtml(a) + EscapeHtml(b)
    decreases |a|
  {
    if a == [] {
      assert a + b == b;
    } else {
      var ab := a + b;
      assert ab[0] == a[0] && ab[1..] == a[1..] + b;
      assert EscapeHtml(ab) == EscapeChar(a[0]) + EscapeHtml(a[1..] + b);
      EscapeHtmlAppend(a[1..], b);
    }
  }

  /** Text without special characters is left exactly as it is. */
  lemma {:induction false} EscapeHtmlIdentityOnSafe(s: string)
    requires forall i :: 0 <= i < |s| ==> !IsSpecial(s[i])
    ensures EscapeHtml(s) == s
    decreases |s|
  {
    if s != [] {
      EscapeHtmlIdentityOnSafe(s[1..]);
    }
  }

  /** The characters of an entity: no markup character, and `&` only at its head. */
  lemma EntityShape(c: char)
    ensures var e := EscapeChar(c);
      (forall i :: 0 <= i < |e| ==> !IsMarkup(e[i])) &&
      (forall i :: 0 < i < |e| ==> e[i] != '&') &&
      (e[0] == '&' ==> BeginsEntity(e))
  {
  }

  /** A prefix of `a` is a prefix of `a + b`. */
  lemma PrefixExtends(a: string, b: string, p: string)
    requires StartsWith(a, p)
    ensures StartsWith(a + b, p)
  {
    assert (a + b)[..|p|] == a[..|p|];
  }

  lemma BeginsEntityExtends(e: string, rest: string)
    requires BeginsEntity(e)
    ensures BeginsEntity(e + rest)
  {
    if StartsWith(e, "&amp;") { PrefixExtends(e, rest, "&amp;"); }
    else if StartsWith(e, "&lt;") { PrefixExtends(e, rest, "&lt;"); }
    else if StartsWith(e, "&gt;") { PrefixExtends(e, rest, "&gt;"); }
    else if StartsWith(e, "&quot;") { PrefixExtends(e, rest, "&quot;"); }
    else { PrefixExtends(e, rest, "&#39;"); }
  }

  /** No `<`, `>`, `"` or `'` occurs in `t`. */
  predicate NoMarkup(t: string) {
    forall i :: 0 <= i < |t| ==> !IsMarkup(t[i])
  }

  /** Every `&` in `t` opens one of the five entities. */
  predicate AmpersandsOpenEntities(t: string) {
    forall i :: 0 <= i < |t| && t[i] == '&' ==> BeginsEntity(t[i..])
  }

  /**
   * The escaped text holds no `<`, `>`, `"` or `'`, and every `&` in it opens one
   * of the five entities.
   */
  lemma {:induction false} EscapedIsSafe(s: string)
    ensures NoMarkup(EscapeHtml(s)) && AmpersandsOpenEntities(EscapeHtml(s))
    decreases |s|
  {
    if s != [] {
      var h := EscapeChar(s[0]);
      var rest := EscapeHtml(s[1..]);
      var r := EscapeHtml(s);
      EscapedIsSafe(s[1..]);
      EntityShape(s[0]);
      assert r == h + rest;
      forall i | 0 <= i < |r| ensures !IsMarkup(r[i]) {
        if i < |h| {
          assert r[i] == h[i];
          assert !IsMarkup(h[i]);
        } else {
          assert r[i] == rest[i - |h|];
          assert !IsMarkup(rest[i - |h|]);
        }
      }
      forall i | 0 <= i < |r| && r[i] == '&' ensures BeginsEntity(r[i..]) {
        if i < |h| {
          assert r[i] == h[i];
          assert i == 0;
          BeginsEntityExtends(h, rest);
        } else {
          assert r[i..] == rest[i - |h|..];
        }
      }
    }
  }

  /** The inverse of `escapeHtml`: each of the five entities back to its character. */
  function Unescape(t: string): string
    decreases |t|
  {
    if t == [] then []
    else if StartsWith(t, "&amp;") then "&" + Unescape(t[5..])
    else if StartsWith(t, "&lt;") then "<" + Unescape(t[4..])
    else if StartsWith(t, "&gt;") then ">" + Unescape(t[4..])
    else if StartsWith(t, "&quot;") then "\"" + Unescape(t[6..])
    else if StartsWith(t, "&#39;") then "'" + Unescape(t[5..])
    else [t[0]] + Unescape(t[1..])
  }

  /** Unescaping reads one escaped character back and continues after it. */
  lemma UnescapeStep(c: char, rest: string)
    ensures Unescape(EscapeChar(c) + rest) == [c] + Unescape(rest)
  {
    var e := EscapeChar(c);
    StartsWithConcat(e, rest);
    if !IsSpecial(c) {
      UnescapePlain(c, rest);
    } else {
      UnescapeEntity(e, [c], rest);
    }
  }

  /** A character outside the five is read back as itself. */
  lemma UnescapePlain(c: char, rest: string)
    requires !IsSpecial(c)
    ensures Unescape([c] + rest) == [c] + Unescape(rest)
  {
    var t := [c] + rest;
    NoEntityAtFront(t);
    assert t[1..] == rest;
  }

  /** Only a text starting with `&` can start with an entity. */
  lemma NoEntityAtFront(t: string)
    requires |t| > 0 && t[0] != '&'
    ensures !BeginsEntity(t)
  {
    assert t[..1] == [t[0]];
  }

  /** An entity at the front is read back as its character. */
  lemma UnescapeEntity(e: string, c: string, rest: string)
    requires (e, c) in {("&amp;", "&"), ("&lt;", "<"), ("&gt;", ">"), ("&quot;", "\""), ("&#39;", "'")}
    ensures Unescape(e + rest) == c + Unescape(rest)
  {
    var t := e + rest;
    StartsWithConcat(e, rest);
    assert t[|e|..] == rest;
    assert t[1] == e[1] && t[2] == e[2];
  }

  /** Escaping loses nothing: unescaping gives the original text back. */
  lemma {:induction false} UnescapeEscape(s: string)
    ensures Unescape(EscapeHtml(s)) == s
    decreases |s|
  {
    if s != [] {
      UnescapeStep(s[0], EscapeHtml(s[1..]));
      UnescapeEscape(s[1..]);
      assert [s[0]] + s[1..] == s;
    }
  }

  /** Different texts escape differently. */
  lemma EscapeHtmlInjective(a: string, b: string)
    requires EscapeHtml(a) == EscapeHtml(b)
    ensures a == b
  {
    UnescapeEscape(a);
    UnescapeEscape(b);
  }

  const RowOpening: string := "<tr><td><div><h3>"
  const RowAfterTitle: string := "</h3><p>"
  const RowPlaceSeparator: string := " • "
  const RowAfterPlace: string := "</p></div><div><span>Posted: "
  const RowAfterDate: string := "</span></div><div><a href=\""
  const RowClosing: string := "\" target=\"_blank\" rel=\"noopener noreferrer\">View Job</a></div></td></tr>"

  /** The pieces of one job's `<tr>`, markup and fields alternating (inline styles abbreviated). */
  function RowParts(job: Job, formatDate: Instant -> string): seq<string> {
    [RowOpening, EscapeHtml(job.title), RowAfterTitle, EscapeHtml(job.company), RowPlaceSeparator,
     EscapeHtml(job.location), RowAfterPlace, formatDate(job.postedAt), RowAfterDate, EscapeHtml(job.url), RowClosing]
  }

  /** One job's row: title, company, location and url escaped, the posting date formatted. */
  function JobRow(job: Job, formatDate: Instant -> string): string {
    Join(RowParts(job, formatDate))
  }

  /** A field shown in the email: its escaped form occurs, holds no markup, and gives the field back. */
  predicate ShowsEscaped(html: string, field: string) {
    Contains(html, EscapeHtml(field)) && NoMarkup(EscapeHtml(field)) && Unescape(EscapeHtml(field)) == field
  }

  /** Title, company, location and url reach the row escaped; the date goes through the formatter. */
  lemma JobRowShowsFields(job: Job, formatDate: Instant -> string)
    ensures var row := JobRow(job, formatDate);
      && ShowsEscaped(row, job.title) && ShowsEscaped(row, job.company)
      && ShowsEscaped(row, job.location) && ShowsEscaped(row, job.url)
      && Contains(row, formatDate(job.postedAt))
  {
    var parts := RowParts(job, formatDate);
    JoinContainsPart(parts, 1);
    JoinContainsPart(parts, 3);
    JoinContainsPart(parts, 5);
    JoinContainsPart(parts, 7);
    JoinContainsPart(parts, 9);
    EscapedIsSafe(job.title);
    EscapedIsSafe(job.company);
    EscapedIsSafe(job.location);
    EscapedIsSafe(job.url);
    UnescapeEscape(job.title);
    UnescapeEscape(job.company);
    UnescapeEscape(job.location);
    UnescapeEscape(job.url);
  }

  /** The markup characters of `s` (`<`, `>`, `"`, `'`), in order. */
  function MarkupOf(s: string): string
    decreases |s|
  {
    if s == [] then [] else (if IsMarkup(s[0]) then [s[0]] else []) + MarkupOf(s[1..])
  }

  lemma {:induction false} MarkupOfAppend(a: string, b: string)
    ensures MarkupOf(a + b) == MarkupOf(a) + MarkupOf(b)
    decreases |a|
  {
    if a == [] {
      assert a + b == b;
    } else {
      var ab := a + b;
      var head := if IsMarkup(a[0]) then [a[0]] else [];
      assert ab[0] == a[0] && ab[1..] == a[1..] + b;
      assert MarkupOf(ab) == head + MarkupOf(a[1..] + b);
      MarkupOfAppend(a[1..], b);
      assert head + (MarkupOf(a[1..]) + MarkupOf(b)) == (head + MarkupOf(a[1..])) + MarkupOf(b);
    }
  }

  lemma {:induction false} MarkupOfNone(s: string)
    requires NoMarkup(s)
    ensures MarkupOf(s) == []
    decreases |s|
  {
    if s != [] {
      assert NoMarkup(s[1..]) by {
        forall i | 0 <= i < |s[1..]| ensures !IsMarkup(s[1..][i]) {
          assert s[1..][i] == s[i + 1];
        }
      }
      MarkupOfNone(s[1..]);
    }
  }

  /** Joining parts that agree, part by part, on their markup gives texts that agree on it. */
  lemma {:induction false} JoinMarkupEqual(ps: seq<string>, qs: seq<string>)
    requires |ps| == |qs|
    requires forall i :: 0 <= i < |ps| ==> MarkupOf(ps[i]) == MarkupOf(qs[i])
    ensures MarkupOf(Join(ps)) == MarkupOf(Join(qs))
    decreases |ps|
  {
    if ps != [] {
      MarkupOfAppend(ps[0], Join(ps[1..]));
      MarkupOfAppend(qs[0], Join(qs[1..]));
      forall i | 0 <= i < |ps[1..]| ensures MarkupOf(ps[1..][i]) == MarkupOf(qs[1..][i]) {
        assert ps[1..][i] == ps[i + 1] && qs[1..][i] == qs[i + 1];
      }
      JoinMarkupEqual(ps[1..], qs[1..]);
    }
  }

  /** Five fields without markup between six fixed pieces: the markup is the pieces' whatever the fields. */
  lemma FiveFieldsMarkup(m0: string, m1: string, m2: string, m3: string, m4: string, m5: string,
                         x1: string, x2: string, x3: string, x4: string, x5: string,
                         y1: string, y2: string, y3: string, y4: string, y5: string)
    requires NoMarkup(x1) && NoMarkup(x2) && NoMarkup(x3) && NoMarkup(x4) && NoMarkup(x5)
    requires NoMarkup(y1) && NoMarkup(y2) && NoMarkup(y3) && NoMarkup(y4) && NoMarkup(y5)
    ensures MarkupOf(Join([m0, x1, m1, x2, m2, x3, m3, x4, m4, x5, m5])) ==
            MarkupOf(Join([m0, y1, m1, y2, m2, y3, m3, y4, m4, y5, m5]))
  {
    var ps := [m0, x1, m1, x2, m2, x3, m3, x4, m4, x5, m5];
    var qs := [m0, y1, m1, y2, m2, y3, m3, y4, m4, y5, m5];
    MarkupOfNone(x1); MarkupOfNone(x2); MarkupOfNone(x3); MarkupOfNone(x4); MarkupOfNone(x5);
    MarkupOfNone(y1); MarkupOfNone(y2); MarkupOfNone(y3); MarkupOfNone(y4); MarkupOfNone(y5);
    forall i | 0 <= i < |ps| ensures MarkupOf(ps[i]) == MarkupOf(qs[i]) {
      if i % 2 == 0 {
        assert ps[i] == qs[i];
      } else {
        assert ps[i] in {x1, x2, x3, x4, x5} && qs[i] in {y1, y2, y3, y4, y5};
      }
    }
    JoinMarkupEqual(ps, qs);
  }

  /**
   * The fields reach the row only escaped: whatever the jobs, two rows hold the same
   * markup characters in the same order (those of the fixed markup), provided the
   * formatted dates hold none. So no field can open a tag or close the `href` attribute.
   */
  lemma RowMarkupIsFixed(a: Job, b: Job, f: Instant -> string, g: Instant -> string)
    requires NoMarkup(f(a.postedAt)) && NoMarkup(g(b.postedAt))
    ensures MarkupOf(JobRow(a, f)) == MarkupOf(JobRow(b, g))
  {
    EscapedIsSafe(a.title);
    EscapedIsSafe(a.company);
    EscapedIsSafe(a.location);
    EscapedIsSafe(a.url);
    EscapedIsSafe(b.title);
    EscapedIsSafe(b.company);
    EscapedIsSafe(b.location);
    EscapedIsSafe(b.url);
    FiveFieldsMarkup(RowOpening, RowAfterTitle, RowPlaceSeparator, RowAfterPlace, RowAfterDate, RowClosing,
                     EscapeHtml(a.title), EscapeHtml(a.company), EscapeHtml(a.location), f(a.postedAt), EscapeHtml(a.url),
                     EscapeHtml(b.title), EscapeHtml(b.company), EscapeHtml(b.location), g(b.postedAt), EscapeHtml(b.url));
  }

  /** `jobs.map(row).join('')`. */
  function JobRows(jobs: seq<Job>, formatDate: Instant -> string): string
    decreases |jobs|
  {
    if jobs == [] then "" else JobRow(jobs[0], formatDate) + JobRows(jobs[1..], formatDate)
  }

  lemma {:induction false} JobRowsAppend(a: seq<Job>, b: seq<Job>, formatDate: Instant -> string)
    ensures JobRows(a + b, formatDate) == JobRows(a, formatDate) + JobRows(b, formatDate)
    decreases |a|
  {
    if a == [] {
      assert a + b == b;
    } else {
      assert (a + b)[0] == a[0] && (a + b)[1..] == a[1..] + b;
      JobRowsAppend(a[1..], b, formatDate);
    }
  }

  /** The rows come in input order: job i's row sits between the rows before and after it. */
  lemma {:induction false} JobRowsInOrder(jobs: seq<Job>, i: nat, formatDate: Instant -> string)
    requires i < |jobs|
    ensures JobRows(jobs, formatDate) ==
      JobRows(jobs[..i], formatDate) + JobRow(jobs[i], formatDate) + JobRows(jobs[i + 1..], formatDate)
  {
    assert jobs == jobs[..i] + [jobs[i]] + jobs[i + 1..];
    JobRowsAppend(jobs[..i] + [jobs[i]], jobs[i + 1..], formatDate);
    JobRowsAppend(jobs[..i], [jobs[i]], formatDate);
    assert [jobs[i]][1..] == [];
    assert JobRows([jobs[i]], formatDate) == JobRow(jobs[i], formatDate) + JobRows([], formatDate);
  }

  const CountOpening: string := "<p>We found <strong>"
  const CountMiddle: string := "</strong> new developer "
  const CountClosing: string := " for you today:</p>"

  /** "position" for exactly one job, "positions" otherwise. */
  function PositionWord(n: nat): string {
    if n == 1 then "position" else "positions"
  }

  function CountTail(n: nat): string {
    CountMiddle + PositionWord(n) + CountClosing
  }

  /** The count sentence: `jobs.length` and the matching noun. */
  function CountSentence(n: nat): string {
    CountOpening + (NatToDecimal(n) + CountTail(n))
  }

  /** Two digit strings followed by a non-digit agree only when they are equal. */
  lemma DigitsThenMarker(da: string, db: string, ta: string, tb: string)
    requires AllDigits(da) && AllDigits(db)
    requires |ta| > 0 && |tb| > 0 && !IsDigit(ta[0]) && !IsDigit(tb[0])
    requires da + ta == db + tb
    ensures da == db && ta == tb
  {
    var k := if |da| < |db| then |da| else |db|;
    assert (da + ta)[k] == (db + tb)[k];
    assert |da| == |db|;
    assert da == (da + ta)[..|da|] == (db + tb)[..|db|] == db;
    assert ta == (da + ta)[|da|..] == (db + tb)[|db|..] == tb;
  }

  /** The sentence states the count exactly: different counts give different sentences. */
  lemma CountSentenceInjective(a: nat, b: nat)
    requires CountSentence(a) == CountSentence(b)
    ensures a == b
  {
    CancelPrefix(CountOpening, NatToDecimal(a) + CountTail(a), NatToDecimal(b) + CountTail(b));
    assert CountTail(a)[0] == CountMiddle[0] == CountTail(b)[0];
    DigitsThenMarker(NatToDecimal(a), NatToDecimal(b), CountTail(a), CountTail(b));
    NatToDecimalInjective(a, b);
  }

  /** The singular noun is used exactly for one job. */
  lemma PositionWordSingular(n: nat)
    ensures PositionWord(n) == "position" <==> n == 1
  {
    assert |"positions"| != |"position"|;
  }

  /** The document around the greeting, count sentence and rows (styles abbreviated). */
  const DocumentOpening: string :=
    "<!DOCTYPE html><html lang=\"en\"><head><meta charset=\"UTF-8\"><title>JobRadar - Daily Job Alert</title></head><body><h1>📡 JobRadar</h1><p>Daily Job Alert</p>"
  const GreetingOpening: string := "<h2>Hello "
  const GreetingClosing: string := "! 👋</h2>"
  const TableOpening: string := "<table role=\"presentation\"><tbody>"
  const DocumentClosing: string :=
    "</tbody></table><p>Visit your dashboard to mark jobs as applied and manage your job search.</p></body></html>"

  function TemplateParts(jobs: seq<Job>, userName: string, formatDate: Instant -> string): seq<string> {
    [DocumentOpening, GreetingOpening, EscapeHtml(userName), GreetingClosing,
     CountSentence(|jobs|), TableOpening, JobRows(jobs, formatDate), DocumentClosing]
  }

  /** `createJobEmailTemplate`: greeting with the escaped user name, count sentence, then the rows. */
  function CreateJobEmailTemplate(jobs: seq<Job>, userName: string, formatDate: Instant -> string): (html: string)
    ensures ShowsEscaped(html, userName)
    ensures Contains(html, CountSentence(|jobs|))
    ensures Contains(html, JobRows(jobs, formatDate))
  {
    TemplateShowsName(jobs, userName, formatDate);
    TemplateShowsCount(jobs, userName, formatDate);
    TemplateShowsRows(jobs, userName, formatDate);
    Join(TemplateParts(jobs, userName, formatDate))
  }

  lemma TemplateShowsName(jobs: seq<Job>, userName: string, formatDate: Instant -> string)
    ensures ShowsEscaped(Join(TemplateParts(jobs, userName, formatDate)), userName)
  {
    JoinContainsPart(TemplateParts(jobs, userName, formatDate), 2);
    EscapedIsSafe(userName);
    UnescapeEscape(userName);
  }

  lemma TemplateShowsCount(jobs: seq<Job>, userName: string, formatDate: Instant -> string)
    ensures Contains(Join(TemplateParts(jobs, userName, formatDate)), CountSentence(|jobs|))
  {
    JoinContainsPart(TemplateParts(jobs, userName, formatDate), 4);
  }

  lemma TemplateShowsRows(jobs: seq<Job>, userName: string, formatDate: Instant -> string)
    ensures Contains(Join(TemplateParts(jobs, userName, formatDate)), JobRows(jobs, formatDate))
  {
    JoinContainsPart(TemplateParts(jobs, userName, formatDate), 6);
  }

  /** Every job's row appears in the email. */
  lemma EveryJobHasARow(jobs: seq<Job>, userName: string, formatDate: Instant -> string, i: nat)
    requires i < |jobs|
    ensures Contains(CreateJobEmailTemplate(jobs, userName, formatDate), JobRow(jobs[i], formatDate))
  {
    JobRowsInOrder(jobs, i, formatDate);
    ContainsPiece(JobRows(jobs[..i], formatDate), JobRow(jobs[i], formatDate), JobRows(jobs[i + 1..], formatDate));
    ContainsTransitive(CreateJobEmailTemplate(jobs, userName, formatDate), JobRows(jobs, formatDate), JobRow(jobs[i], formatDate));
  }

  const SingleSubject: string := "JobRadar Alert: 1 New Developer Position"
  const SubjectOpening: string := "JobRadar Alert: "
  const PluralTail: string := " New Developer Positions"

  /** The subject line: a fixed text for one job, the count and plural otherwise. */
  function Subject(n: nat): string {
    if n == 1 then SingleSubject
    else SubjectOpening + (NatToDecimal(n) + PluralTail)
  }

  function SubjectTail(n: nat): string {
    " New Developer Position" + (if n == 1 then "" else "s")
  }

  /** Both branches are the one pattern: count, noun, and an "s" unless the count is one. */
  lemma SubjectForm(n: nat)
    ensures Subject(n) == SubjectOpening + (NatToDecimal(n) + SubjectTail(n))
  {
    if n == 1 {
      assert NatToDecimal(1) == "1";
    } else {
      assert SubjectTail(n) == PluralTail;
    }
  }

  /** The subject states the count exactly. */
  lemma SubjectInjective(a: nat, b: nat)
    requires Subject(a) == Subject(b)
    ensures a == b
  {
    SubjectForm(a);
    SubjectForm(b);
    CancelPrefix(SubjectOpening, NatToDecimal(a) + SubjectTail(a), NatToDecimal(b) + SubjectTail(b));
    assert SubjectTail(a)[0] == ' ' == SubjectTail(b)[0];
    DigitsThenMarker(NatToDecimal(a), NatToDecimal(b), SubjectTail(a), SubjectTail(b));
    NatToDecimalInjective(a, b);
  }

  const Sender: string := "JobRadar <noreply@jobsearch.example.com>"
  const NoJobsMessage: string := "No jobs to send"
  const TransportFailedMessage: string := "Failed to send email"
  const UnknownErrorMessage: string := "Unknown error occurred"

  /** `EmailJobData`: what one user's alert is built from. */
  datatype EmailJobData = EmailJobData(jobs: seq<Job>, userEmail: string, userName: string)

  /** The message handed to the transport. */
  datatype Email = Email(from: string, to: seq<string>, subject: string, html: string)

  /**
   * The transport's answer: accepted; an `error` object in the reply (its message, "" when
   * it has none); or a thrown value (its message when it is an `Error`, None otherwise).
   */
  datatype TransportOutcome = Delivered | Rejected(message: string) | Threw(thrown: Option<string>)

  datatype SendResult = SendResult(success: bool, error: Option<string>)

  /** The email that would be sent, absent for an empty job list. */
  function AlertEmail(data: EmailJobData, formatDate: Instant -> string): (e: Option<Email>)
    ensures e.None? <==> |data.jobs| == 0
    ensures e.Some? ==> e.value.from == Sender && e.value.to == [data.userEmail] && e.value.subject == Subject(|data.jobs|)
  {
    if |data.jobs| == 0 then None
    else Some(Email(Sender, [data.userEmail], Subject(|data.jobs|), CreateJobEmailTemplate(data.jobs, data.userName, formatDate)))
  }

  /** `sendJobAlertEmail`: the empty guard, one transport call, and the mapping of its answer. */
  function SendJobAlertEmail(data: EmailJobData, formatDate: Instant -> string, transport: Email -> TransportOutcome): (r: SendResult)
    ensures |data.jobs| == 0 ==> r == SendResult(false, Some(NoJobsMessage))
    ensures |data.jobs| > 0 ==>
      var outcome := transport(AlertEmail(data, formatDate).value);
      && (r.success <==> outcome.Delivered?)
      && (r.success ==> r.error.None?)
      && (outcome.Rejected? ==> r.error == Some(if outcome.message == "" then TransportFailedMessage else outcome.message))
      && (outcome.Threw? ==> r.error == Some(outcome.thrown.GetOr(UnknownErrorMessage)))
  {
    match AlertEmail(data, formatDate)
    case None => SendResult(false, Some(NoJobsMessage))
    case Some(email) =>
      match transport(email)
      case Delivered => SendResult(true, None)
      case Rejected(message) => SendResult(false, Some(if message == "" then TransportFailedMessage else message))
      case Threw(thrown) => SendResult(false, Some(thrown.GetOr(UnknownErrorMessage)))
  }

  /** A failed send always carries an error text. */
  lemma FailureHasMessage(data: EmailJobData, formatDate: Instant -> string, transport: Email -> TransportOutcome)
    ensures var r := SendJobAlertEmail(data, formatDate, transport);
      !r.success <==> r.error.Some?
  {
  }

  /** With no jobs the transport is never consulted: any two transports give the same answer. */
  lemma EmptyJobsIgnoreTransport(data: EmailJobData, formatDate: Instant -> string,
                                 t1: Email -> TransportOutcome, t2: Email -> TransportOutcome)
    requires |data.jobs| == 0
    ensures SendJobAlertEmail(data, formatDate, t1) == SendJobAlertEmail(data, formatDate, t2)
  {
  }
}
