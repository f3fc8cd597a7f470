/**
 * The date-range picker (src/app/components/dateRangePicker.tsx): the five filter
 * options, the range each one stands for, and the state kept between clicks and date
 * inputs. A local date is a day number and the milliseconds since its midnight;
 * `new Date()` is the `today` argument and `new Date(text)` of a date input is `parseDate`.
 */
module DateRangePicker {
  import opened Wrappers
  import opened Store

  datatype DateFilterOption = Today | Yesterday | Last7Days | Last30Days | Custom

  /** A local moment: the day and the milliseconds into it. */
  datatype Moment = Moment(day: int, ms: int)

  predicate ValidMoment(m: Moment) {
    0 <= m.ms < DayMs
  }

  /** `a <= b` on the time line. */
  predicate AtOrBefore(a: Moment, b: Moment) {
    a.day < b.day || (a.day == b.day && a.ms <= b.ms)
  }

  /** The range handed to `onDateChange`; `None` is an undefined bound. */
  datatype DateRange = DateRange(from: Option<Moment>, to: Option<Moment>)

  /** A moment inside a range whose bounds are both set. */
  predicate Within(m: Moment, r: DateRange) {
    r.from.Some? && r.to.Some? && AtOrBefore(r.from.value, m) && AtOrBefore(m, r.to.value)
  }

  /** `setHours(0, 0, 0, 0)`. */
  function StartOfDay(m: Moment): (s: Moment)
    ensures ValidMoment(s) && s.day == m.day
    ensures ValidMoment(m) ==> AtOrBefore(s, m)
  {
    Moment(m.day, 0)
  }

  /** `setHours(23, 59, 59, 999)`. */
  function EndOfDay(m: Moment): (e: Moment)
    ensures ValidMoment(e) && e.day == m.day
    ensures ValidMoment(m) ==> AtOrBefore(m, e)
  {
    Moment(m.day, DayMs - 1)
  }

  /** `setDate(getDate() - n)`: the same time of day, n days earlier. */
  function DaysBefore(m: Moment, n: nat): Moment {
    Moment(m.day - n, m.ms)
  }

  /** The option selected first. */
  function InitialOption(defaultToToday: bool): (o: DateFilterOption)
    ensures o == Today <==> defaultToToday
    ensures o == Today || o == Last7Days
  {
    if defaultToToday then Today else Last7Days
  }

  /** The whole days a preset option covers, as (first day back, last day back) from today. */
  function PresetDays(option: DateFilterOption): (nat, nat)
    requires option != Custom
  {
    match option
    case Today => (0, 0)
    case Yesterday => (1, 1)
    case Last7Days => (7, 0)
    case Last30Days => (30, 0)
  }

  /** `getDateRange`. */
  function GetDateRange(option: DateFilterOption, today: Moment, customDateFrom: string,
                        customDateTo: string, parseDate: string -> Moment): (r: DateRange)
    ensures option != Custom ==>
      && r.from.Some? && r.to.Some?
      && AtOrBefore(r.from.value, r.to.value)
      && r.from.value == Moment(today.day - PresetDays(option).0, 0)
      && r.to.value == Moment(today.day - PresetDays(option).1, DayMs - 1)
    ensures option == Custom ==>
      && (r.from.None? <==> customDateFrom == "")
      && (r.to.None? <==> customDateTo == "")
      && (r.from.Some? ==> r.from.value == Moment(parseDate(customDateFrom).day, 0))
      && (r.to.Some? ==> r.to.value == Moment(parseDate(customDateTo).day, DayMs - 1))
  {
    var yesterday := DaysBefore(today, 1);
    var last7Days := DaysBefore(today, 7);
    var last30Days := DaysBefore(today, 30);
    match option
    case Today => DateRange(Some(StartOfDay(today)), Some(EndOfDay(today)))
    case Yesterday => DateRange(Some(StartOfDay(yesterday)), Some(EndOfDay(yesterday)))
    case Last7Days => DateRange(Some(StartOfDay(last7Days)), Some(EndOfDay(today)))
    case Last30Days => DateRange(Some(StartOfDay(last30Days)), Some(EndOfDay(today)))
    case Custom =>
      var from := if customDateFrom != "" then Some(StartOfDay(parseDate(customDateFrom))) else None;
      var to := if customDateTo != "" then Some(EndOfDay(parseDate(customDateTo))) else None;
      DateRange(from, to)
  }

  /**
   * A preset range is made of whole days: a moment lies in it exactly when its day is
   * one of the days the option names.
   */
  lemma PresetCoversWholeDays(option: DateFilterOption, today: Moment, customDateFrom: string,
                              customDateTo: string, parseDate: string -> Moment, m: Moment)
    requires option != Custom && ValidMoment(m)
    ensures Within(m, GetDateRange(option, today, customDateFrom, customDateTo, parseDate)) <==>
      today.day - PresetDays(option).0 <= m.day <= today.day - PresetDays(option).1
  {
  }

  /** Every preset but 'yesterday' contains the present moment; 'yesterday' ends before it. */
  lemma PresetsAroundNow(option: DateFilterOption, today: Moment, customDateFrom: string,
                         customDateTo: string, parseDate: string -> Moment)
    requires option != Custom && ValidMoment(today)
    ensures var r := GetDateRange(option, today, customDateFrom, customDateTo, parseDate);
      (option == Yesterday ==> !Within(today, r) && AtOrBefore(r.to.value, today)) &&
      (option != Yesterday ==> Within(today, r))
  {
    PresetCoversWholeDays(option, today, customDateFrom, customDateTo, parseDate, today);
  }

  /** The ranges widen in the order the buttons list them: today within 7 days within 30 days. */
  lemma PresetsNest(today: Moment, f: string, t: string, parseDate: string -> Moment, m: Moment)
    requires ValidMoment(m)
    ensures Within(m, GetDateRange(Today, today, f, t, parseDate)) ==>
      Within(m, GetDateRange(Last7Days, today, f, t, parseDate))
    ensures Within(m, GetDateRange(Yesterday, today, f, t, parseDate)) ==>
      Within(m, GetDateRange(Last7Days, today, f, t, parseDate))
    ensures Within(m, GetDateRange(Last7Days, today, f, t, parseDate)) ==>
      Within(m, GetDateRange(Last30Days, today, f, t, parseDate))
  {
    PresetCoversWholeDays(Today, today, f, t, parseDate, m);
    PresetCoversWholeDays(Yesterday, today, f, t, parseDate, m);
    PresetCoversWholeDays(Last7Days, today, f, t, parseDate, m);
    PresetCoversWholeDays(Last30Days, today, f, t, parseDate, m);
  }

  /**
   * What `handleCustomDateChange` emits with the given state: the custom range while
   * 'custom' is selected, nothing otherwise.
   */
  function CustomChangeEmission(selectedOption: DateFilterOption, customDateFrom: string,
                                customDateTo: string, today: Moment, parseDate: string -> Moment)
    : (e: seq<DateRange>)
    ensures |e| <= 1
    ensures |e| == 1 <==> selectedOption == Custom
    ensures |e| == 1 ==> e[0] == GetDateRange(Custom, today, customDateFrom, customDateTo, parseDate)
  {
    if selectedOption == Custom then [GetDateRange(Custom, today, customDateFrom, customDateTo, parseDate)]
    else []
  }

  /**
   * The "From Date" input as written: the deferred `handleCustomDateChange` is the one of
   * the render in which the input changed, so it reads the date from before the change.
   * A first date typed into an empty field is emitted as an undefined bound.
   */
  lemma StaleFromDate(today: Moment, value: string, customDateTo: string, parseDate: string -> Moment)
    requires value != ""
    ensures var emitted := CustomChangeEmission(Custom, "", customDateTo, today, parseDate);
      |emitted| == 1 && emitted[0].from.None?
    ensures var intended := CustomChangeEmission(Custom, value, customDateTo, today, parseDate);
      |intended| == 1 && intended[0].from == Some(Moment(parseDate(value).day, 0))
  {
  }

  /** The "To Date" input as written: a first date typed into an empty field is emitted as an undefined bound. */
  lemma StaleToDate(today: Moment, customDateFrom: string, value: string, parseDate: string -> Moment)
    requires value != ""
    ensures var emitted := CustomChangeEmission(Custom, customDateFrom, "", today, parseDate);
      |emitted| == 1 && emitted[0].to.None?
    ensures var intended := CustomChangeEmission(Custom, customDateFrom, value, today, parseDate);
      |intended| == 1 && intended[0].to == Some(Moment(parseDate(value).day, DayMs - 1))
  {
  }

  /**
   * The picker's state: the selected option, the two date inputs, and every range handed
   * to `onDateChange`, in order.
   */
  class Picker {
    const parseDate: string -> Moment
    var selectedOption: DateFilterOption
    var customDateFrom: string
    var customDateTo: string
    var emitted: seq<DateRange>

    /** The initial state, and the range the `useState` initializer emits once. */
    constructor (defaultToToday: bool, today: Moment, parseDate: string -> Moment)
      ensures this.parseDate == parseDate
      ensures selectedOption == InitialOption(defaultToToday)
      ensures customDateFrom == "" && customDateTo == ""
      ensures emitted == [GetDateRange(InitialOption(defaultToToday), today, "", "", parseDate)]
    {
      this.parseDate := parseDate;
      selectedOption := InitialOption(defaultToToday);
      customDateFrom := "";
      customDateTo := "";
      emitted := [GetDateRange(InitialOption(defaultToToday), today, "", "", parseDate)];
    }

    /** `handleOptionChange`: select the option and emit its range. */
    method HandleOptionChange(option: DateFilterOption, today: Moment)
      modifies this
      ensures selectedOption == option
      ensures customDateFrom == old(customDateFrom) && customDateTo == old(customDateTo)
      ensures emitted == old(emitted) + [GetDateRange(option, today, customDateFrom, customDateTo, parseDate)]
    {
      selectedOption := option;
      emitted := emitted + [GetDateRange(option, today, customDateFrom, customDateTo, parseDate)];
    }

    /** `handleCustomDateChange`: emit the custom range, only while 'custom' is selected. */
    method HandleCustomDateChange(today: Moment)
      modifies this
      ensures selectedOption == old(selectedOption)
      ensures customDateFrom == old(customDateFrom) && customDateTo == old(customDateTo)
      ensures emitted == old(emitted) + CustomChangeEmission(selectedOption, customDateFrom, customDateTo, today, parseDate)
    {
      if selectedOption == Custom {
        emitted := emitted + [GetDateRange(Custom, today, customDateFrom, customDateTo, parseDate)];
      }
    }

    /**
     * The "From Date" `onChange` as written: the field takes the new value, and the
     * deferred handler emits from the state of the render that saw the change.
     */
    method ChangeFromDateAsWritten(value: string, today: Moment)
      modifies this
      ensures selectedOption == old(selectedOption)
      ensures customDateFrom == value && customDateTo == old(customDateTo)
      ensures emitted == old(emitted) +
        CustomChangeEmission(old(selectedOption), old(customDateFrom), old(customDateTo), today, parseDate)
    {
      var stale := CustomChangeEmission(selectedOption, customDateFrom, customDateTo, today, parseDate);
      customDateFrom := value;
      emitted := emitted + stale;
    }

    /** The "To Date" `onChange` as written, with the same stale read. */
    method ChangeToDateAsWritten(value: string, today: Moment)
      modifies this
      ensures selectedOption == old(selectedOption)
      ensures customDateTo == value && customDateFrom == old(customDateFrom)
      ensures emitted == old(emitted) +
        CustomChangeEmission(old(selectedOption), old(customDateFrom), old(customDateTo), today, parseDate)
    {
      var stale := CustomChangeEmission(selectedOption, customDateFrom, customDateTo, today, parseDate);
      customDateTo := value;
      emitted := emitted + stale;
    }

    /** The "From Date" change as intended: store the value, then emit from the updated state. */
    method ChangeFromDate(value: string, today: Moment)
      modifies this
      ensures selectedOption == old(selectedOption)
      ensures customDateFrom == value && customDateTo == old(customDateTo)
      ensures emitted == old(emitted) + CustomChangeEmission(selectedOption, value, customDateTo, today, parseDate)
      ensures selectedOption == Custom ==>
        Last(emitted) == GetDateRange(Custom, today, customDateFrom, customDateTo, parseDate)
    {
      customDateFrom := value;
      HandleCustomDateChange(today);
    }

    /** The "To Date" change as intended. */
    method ChangeToDate(value: string, today: Moment)
      modifies this
      ensures selectedOption == old(selectedOption)
      ensures customDateTo == value && customDateFrom == old(customDateFrom)
      ensures emitted == old(emitted) + CustomChangeEmission(selectedOption, customDateFrom, value, today, parseDate)
      ensures selectedOption == Custom ==>
        Last(emitted) == GetDateRange(Custom, today, customDateFrom, customDateTo, parseDate)
    {
      customDateTo := value;
      HandleCustomDateChange(today);
    }
  }

  /**
   * The first from date of a session, on two fresh pickers switched to 'custom': the
   * handler as written reports a range without `from`, the corrected one the chosen day.
   */
  method FirstFromDateScenario(defaultToToday: bool, today: Moment, parseDate: string -> Moment, value: string)
    returns (asWritten: DateRange, corrected: DateRange)
    requires value != ""
    ensures asWritten.from.None?
    ensures corrected.from == Some(Moment(parseDate(value).day, 0))
    ensures asWritten.to == corrected.to
  {
    var stale := new Picker(defaultToToday, today, parseDate);
    stale.HandleOptionChange(Custom, today);
    stale.ChangeFromDateAsWritten(value, today);
    asWritten := Last(stale.emitted);
    var fixed := new Picker(defaultToToday, today, parseDate);
    fixed.HandleOptionChange(Custom, today);
    fixed.ChangeFromDate(value, today);
    corrected := Last(fixed.emitted);
  }

  /** The same for the first to date. */
  method FirstToDateScenario(defaultToToday: bool, today: Moment, parseDate: string -> Moment, value: string)
    returns (asWritten: DateRange, corrected: DateRange)
    requires value != ""
    ensures asWritten.to.None?
    ensures corrected.to == Some(Moment(parseDate(value).day, DayMs - 1))
    ensures asWritten.from == corrected.from
  {
    var stale := new Picker(defaultToToday, today, parseDate);
    stale.HandleOptionChange(Custom, today);
    stale.ChangeToDateAsWritten(value, today);
    asWritten := Last(stale.emitted);
    var fixed := new Picker(defaultToToday, today, parseDate);
    fixed.HandleOptionChange(Custom, today);
    fixed.ChangeToDate(value, today);
    corrected := Last(fixed.emitted);
  }

  function Last(s: seq<DateRange>): DateRange
    requires |s| > 0
  {
    s[|s| - 1]
  }
}
