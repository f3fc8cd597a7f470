/**
 * The job card (src/app/components/jobCard.tsx): the "Nh ago" / "Nd ago" wording of a
 * job's posting time, and the applied toggle that flips the card's own state and
 * reports the new value to its parent.
 */
module JobCard {
  import opened Wrappers
  import opened Strings
  import opened Store

  const HoursSuffix: string := "h ago"
  const DaysSuffix: string := "d ago"

  /** `Math.floor((now - posted) / (1000 * 60 * 60))`: whole hours elapsed, rounded down. */
  function DiffInHours(now: Instant, posted: Instant): (h: int)
    ensures h * HourMs <= now - posted < (h + 1) * HourMs
  {
    (now - posted) / HourMs
  }

  /** `formatPostedDate`: hours below one day (negative for a future date), whole days above. */
  function FormatPostedDate(now: Instant, posted: Instant): (text: string)
    ensures now - posted < DayMs <==> EndsWith(text, HoursSuffix)
    ensures now - posted >= DayMs <==> EndsWith(text, DaysSuffix)
    ensures now < posted ==> text[0] == '-'
    ensures now - posted >= DayMs ==> text[0] != '-' && text[0] != '0'
  {
    var h := DiffInHours(now, posted);
    if h < 24 then IntToDecimal(h) + HoursSuffix
    else NatToDecimal(h / 24) + DaysSuffix
  }

  predicate EndsWith(s: string, suffix: string) {
    |suffix| <= |s| && s[|s| - |suffix|..] == suffix
  }

  /** `Math.floor` is the only whole number with this bracket: the hours shown are exact. */
  lemma FloorUnique(d: int, unit: int, a: int, b: int)
    requires unit > 0
    requires a * unit <= d < (a + 1) * unit
    requires b * unit <= d < (b + 1) * unit
    ensures a == b
  {
    if a < b {
      MulLe(a + 1, b, unit);
    } else if b < a {
      MulLe(b + 1, a, unit);
    }
  }

  lemma MulLe(x: int, y: int, unit: int)
    requires x <= y && unit > 0
    ensures x * unit <= y * unit
  {
  }

  /** Less than a day old: the text is the whole hours elapsed, "h ago". */
  lemma {:induction false} HoursText(now: Instant, posted: Instant, n: int)
    requires now - posted < DayMs
    requires n * HourMs <= now - posted < (n + 1) * HourMs
    ensures FormatPostedDate(now, posted) == IntToDecimal(n) + HoursSuffix
  {
    var h := DiffInHours(now, posted);
    FloorUnique(now - posted, HourMs, h, n);
    if h >= 24 {
      MulLe(24, h, HourMs);
      assert false;
    }
  }

  /** A day old or more: the text is the whole days elapsed, at least 1, "d ago". */
  lemma {:induction false} DaysText(now: Instant, posted: Instant, n: int)
    requires now - posted >= DayMs
    requires n * DayMs <= now - posted < (n + 1) * DayMs
    ensures n >= 1
    ensures FormatPostedDate(now, posted) == NatToDecimal(n) + DaysSuffix
  {
    var d := now - posted;
    var h := DiffInHours(now, posted);
    if h < 24 {
      assert false;
    }
    var days := h / 24;
    assert days * 24 <= h < days * 24 + 24;
    MulLe(days * 24, h, HourMs);
    MulLe(h + 1, days * 24 + 24, HourMs);
    assert days * DayMs <= d < (days + 1) * DayMs;
    FloorUnique(d, DayMs, days, n);
    if n < 1 {
      MulLe(n + 1, 1, DayMs);
      assert false;
    }
  }

  /**
   * The card's own state: `isApplied`, and the `(job.id, applied)` pairs handed to the
   * optional `onAppliedToggle` callback, in order.
   */
  class Card {
    const jobId: JobId
    const hasCallback: bool
    var isApplied: bool
    var reported: seq<(JobId, bool)>

    /** `useState(job.applied || false)`: an absent flag starts as not applied. */
    constructor (jobId: JobId, applied: Option<bool>, hasCallback: bool)
      ensures this.jobId == jobId && this.hasCallback == hasCallback
      ensures isApplied == applied.GetOr(false)
      ensures reported == []
    {
      this.jobId := jobId;
      this.hasCallback := hasCallback;
      isApplied := applied.GetOr(false);
      reported := [];
    }

    /** `handleAppliedToggle`: flip the flag and report the new value, when there is a callback. */
    method Toggle()
      modifies this
      ensures isApplied == !old(isApplied)
      ensures reported == old(reported) + (if hasCallback then [(jobId, isApplied)] else [])
    {
      var newAppliedState := !isApplied;
      isApplied := newAppliedState;
      if hasCallback {
        reported := reported + [(jobId, newAppliedState)];
      }
    }

    /** Two clicks restore the flag; the parent hears both new values in turn. */
    method ToggleTwice()
      modifies this
      ensures isApplied == old(isApplied)
      ensures hasCallback ==> reported == old(reported) + [(jobId, !old(isApplied)), (jobId, old(isApplied))]
      ensures !hasCallback ==> reported == old(reported)
    {
      Toggle();
      Toggle();
    }
  }
}
