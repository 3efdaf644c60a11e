/** Defaulting of a query's date window. Dates are day ordinals; the clock
    is injected as today's ordinal together with its `MM/DD/YYYY` text. */
module Dates {
  import opened Results

  /** A date argument: text that parses as `MM/DD/YYYY`, represented by the day
      it denotes, or text that does not parse. The model writes every date it
      produces as a `Date`, as `strftime` writes a parsable text. */
  datatype DateArg = Date(day: int) | Malformed(text: string)

  /** The default window length, in days. */
  const WindowDays := 31

  const EndFormatMessage := "End date must be in MM/DD/YYYY format"
  const StartFormatMessage := "Start date must be in MM/DD/YYYY format"

  function EndTooLateMessage(todayText: string): string {
    "End date cannot be later than today (" + todayText + ")"
  }

  /** Python's truth value of the attribute: present and not the empty text. */
  predicate Given(a: Option<DateArg>) {
    a.Some? && a.value != Malformed("")
  }

  /** The latest acceptable end day. `datetime.now()` carries a time of day t in [0, 1)
      while a parsed date is at midnight, so `end > today + 1 day` holds for an end
      day e exactly when e > today + 1 + t, that is when e > today + 1. */
  function Ceiling(today: int): int {
    today + 1
  }

  /** The window `apply_default_date_ranges` leaves in the arguments, or its error. */
  function DefaultDateRange(start: Option<DateArg>, end: Option<DateArg>, today: int, todayText: string)
    : Result<(DateArg, DateArg)>
  {
    if !Given(start) && !Given(end) then
      Ok((Date(today - WindowDays), Date(today)))
    else if Given(end) && !Given(start) then
      match end.value
      case Malformed(_) => Err(ValidationError(EndFormatMessage))
      case Date(e) =>
        if e > Ceiling(today) then Err(ValidationError(EndTooLateMessage(todayText)))
        else Ok((Date(e - WindowDays), Date(e)))
    else if Given(start) && !Given(end) then
      match start.value
      case Malformed(_) => Err(ValidationError(StartFormatMessage))
      case Date(s) =>
        var e := s + WindowDays;
        Ok((Date(s), Date(if e > Ceiling(today) then today else e)))
    else
      match end.value
      case Malformed(_) => Err(ValidationError(EndFormatMessage))
      case Date(e) =>
        if e > Ceiling(today) then Err(ValidationError(EndTooLateMessage(todayText)))
        else Ok((start.value, end.value))
  }

  /** The date attributes of a parsed command line, which the defaulting updates in place. */
  class DateRangeArgs {
    var startDate: Option<DateArg>
    var endDate: Option<DateArg>
    var usedDefaultDates: bool

    constructor (startDate: Option<DateArg>, endDate: Option<DateArg>)
      ensures this.startDate == startDate && this.endDate == endDate && !usedDefaultDates
    {
      this.startDate := startDate;
      this.endDate := endDate;
      usedDefaultDates := false;
    }

    /** `apply_default_date_ranges(args)`: on success the attributes hold the window
        and the default flag is raised when neither date was given; on failure
        nothing is changed. */
    method ApplyDefaultDateRanges(today: int, todayText: string) returns (err: Option<Error>)
      modifies this
      ensures var r := DefaultDateRange(old(startDate), old(endDate), today, todayText);
        && (r.Err? ==> err == Some(r.error) && startDate == old(startDate) && endDate == old(endDate)
                       && usedDefaultDates == old(usedDefaultDates))
        && (r.Ok? ==> err == None && startDate == Some(r.value.0) && endDate == Some(r.value.1)
                      && usedDefaultDates == (old(usedDefaultDates) || (!Given(old(startDate)) && !Given(old(endDate)))))
    {
      err := None;
      if !Given(startDate) && !Given(endDate) {
        endDate := Some(Date(today));
        startDate := Some(Date(today - WindowDays));
        usedDefaultDates := true;
      } else if Given(endDate) && !Given(startDate) {
        match endDate.value {
          case Malformed(_) =>
            err := Some(ValidationError(EndFormatMessage));
          case Date(e) =>
            if e > Ceiling(today) {
              err := Some(ValidationError(EndTooLateMessage(todayText)));
            } else {
              startDate := Some(Date(e - WindowDays));
            }
        }
      } else if Given(startDate) && !Given(endDate) {
        match startDate.value {
          case Malformed(_) =>
            err := Some(ValidationError(StartFormatMessage));
          case Date(s) =>
            var e := s + WindowDays;
            if e > Ceiling(today) {
              e := today;
            }
            endDate := Some(Date(e));
        }
      } else {
        match endDate.value {
          case Malformed(_) =>
            err := Some(ValidationError(EndFormatMessage));
          case Date(e) =>
            if e > Ceiling(today) {
              err := Some(ValidationError(EndTooLateMessage(todayText)));
            }
        }
      }
    }
  }

  /** Every window the defaulting accepts ends on a date no later than tomorrow. */
  lemma EndWithinTolerance(start: Option<DateArg>, end: Option<DateArg>, today: int, todayText: string)
    requires DefaultDateRange(start, end, today, todayText).Ok?
    ensures DefaultDateRange(start, end, today, todayText).value.1.Date?
    ensures DefaultDateRange(start, end, today, todayText).value.1.day <= today + 1
  {
  }

  /** An end date later than tomorrow fails, whatever the start date is. */
  lemma LateEndFails(start: Option<DateArg>, e: int, today: int, todayText: string)
    requires e > today + 1
    ensures DefaultDateRange(start, Some(Date(e)), today, todayText) == Err(ValidationError(EndTooLateMessage(todayText)))
  {
  }

  /** Neither date: the 31 days ending today. */
  lemma NeitherGiven(today: int, todayText: string)
    ensures DefaultDateRange(None, None, today, todayText) == Ok((Date(today - 31), Date(today)))
  {
  }

  /** Only the end: the 31 days ending there. */
  lemma OnlyEndGiven(start: Option<DateArg>, e: int, today: int, todayText: string)
    requires !Given(start) && e <= today + 1
    ensures DefaultDateRange(start, Some(Date(e)), today, todayText) == Ok((Date(e - 31), Date(e)))
  {
  }

  /** Only the start: 31 days from there, cut back to today when that passes tomorrow.
      The derived window has 31 days unless it was cut back. */
  lemma OnlyStartGiven(s: int, end: Option<DateArg>, today: int, todayText: string)
    requires !Given(end)
    ensures var r := DefaultDateRange(Some(Date(s)), end, today, todayText);
      && r.Ok? && r.value.0 == Date(s) && r.value.1.Date?
      && (s + 31 <= today + 1 ==> r.value.1.day == s + 31)
      && (s + 31 > today + 1 ==> r.value.1.day == today && r.value.1.day - s < 31)
  {
  }

  /** A start date later than today gives an end before the start: the window is inverted. */
  lemma FutureStartInvertsWindow(s: int, today: int, todayText: string)
    requires s > today
    ensures var r := DefaultDateRange(Some(Date(s)), None, today, todayText);
      r.Ok? && r.value.1 == Date(today) && r.value.1.day < r.value.0.day
  {
  }

  /** Both dates: kept as given once the end passes the check; the start is never parsed. */
  lemma BothGiven(start: DateArg, e: int, today: int, todayText: string)
    requires start != Malformed("") && e <= today + 1
    ensures DefaultDateRange(Some(start), Some(Date(e)), today, todayText) == Ok((start, Date(e)))
  {
  }

  /** A malformed date that is consulted fails with the format message for that date. */
  lemma MalformedFails(text: string, other: Option<DateArg>, today: int, todayText: string)
    requires text != ""
    ensures !Given(other) ==>
      DefaultDateRange(other, Some(Malformed(text)), today, todayText) == Err(ValidationError(EndFormatMessage))
    ensures !Given(other) ==>
      DefaultDateRange(Some(Malformed(text)), other, today, todayText) == Err(ValidationError(StartFormatMessage))
    ensures Given(other) ==>
      DefaultDateRange(other, Some(Malformed(text)), today, todayText) == Err(ValidationError(EndFormatMessage))
  {
  }
}
