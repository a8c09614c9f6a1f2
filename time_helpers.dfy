/** Work-day boundaries and the checks applied to fact times
    (nark/helpers/time.py). */
module TimeHelpers {
  import opened Wrappers
  import opened Clock

  /** The exceptions the helpers raise. */
  datatype TimeError =
    | IndexError                     // a format placeholder without an argument
    | NotATime(typeName: string)     // TypeError: neither a datetime, a string nor a false value
    | StartAfterEnd                  // ValueError
    | Incomparable                   // TypeError: naive against aware

  /** `day_end_time`: the clock time one second before the day start, wrapping
      past midnight. Times of day are seconds after midnight. */
  function DayEndTime(startTime: int): (r: int)
    requires 0 <= startTime < SecondsPerDay
    ensures 0 <= r < SecondsPerDay
    ensures (r + 1) % SecondsPerDay == startTime
  {
    (startTime - 1) % SecondsPerDay
  }

  /** `day_end_datetime`: the last second of the work day that begins at
      `startTime` (midnight when absent) on day `endDate`, returned in seconds.
      A midnight start ends the same calendar day, any later start ends on the
      next one. */
  function DayEndDatetime(endDate: int, startTime: Option<int>): (r: int)
    requires startTime.Some? ==> 0 <= startTime.value < SecondsPerDay
    ensures var start := endDate * SecondsPerDay + startTime.GetOr(0);
      r == start + SecondsPerDay - 1
    ensures (startTime.None? || startTime.value == 0) <==> r / SecondsPerDay == endDate
    ensures r % SecondsPerDay == DayEndTime(startTime.GetOr(0))
  {
    var s := startTime.GetOr(0);
    var endTime := DayEndTime(s);
    if s == 0 then
      endDate * SecondsPerDay + endTime
    else
      endDate * SecondsPerDay + endTime + SecondsPerDay
  }

  /** `must_be_datetime_or_relative` as written: its error branch formats a
      message whose `{}` placeholder is given no positional argument, so the
      `IndexError` from `str.format` escapes instead of the intended TypeError. */
  function MustBeDatetimeOrRelativeAsWritten(v: Loose): (r: Result<Loose, TimeError>)
    ensures r.Failure? <==> v.Truthy() && v.LOther?
    ensures r.Failure? ==> r.error == IndexError
  {
    if !v.Truthy() || v.LDateTime? || v.LText? then MustBeDatetimeOrRelative(v)
    else Failure(IndexError)
  }

  /** `must_be_datetime_or_relative` as intended: a false value, a string or a
      datetime passes (a datetime with its microseconds dropped); anything else
      is a TypeError naming its type. */
  function MustBeDatetimeOrRelative(v: Loose): (r: Result<Loose, TimeError>)
    ensures r.Failure? <==> v.Truthy() && v.LOther?
    ensures r.Failure? ==> r.error == NotATime(v.typeName)
    ensures r.Success? && v.LDateTime? ==>
      r.value.LDateTime? && r.value.dt.micro == 0 && r.value.dt.seconds == v.dt.seconds && r.value.dt.offset == v.dt.offset
    ensures r.Success? && !v.LDateTime? ==> r.value == v
  {
    if !v.Truthy() || v.LDateTime? || v.LText? then
      if v.LDateTime? then Success(LDateTime(v.dt.(micro := 0))) else Success(v)
    else Failure(NotATime(v.typeName))
  }

  /** Normalising twice is normalising once. */
  lemma MustBeDatetimeOrRelativeIdempotent(v: Loose)
    requires MustBeDatetimeOrRelative(v).Success?
    ensures MustBeDatetimeOrRelative(MustBeDatetimeOrRelative(v).value) == MustBeDatetimeOrRelative(v)
  {
  }

  /** The two versions differ only in the exception of the error branch. */
  lemma AsWrittenDiffersOnlyInError(v: Loose)
    ensures MustBeDatetimeOrRelativeAsWritten(v).Success? ==> MustBeDatetimeOrRelativeAsWritten(v) == MustBeDatetimeOrRelative(v)
    ensures v.Truthy() && v.LOther? ==>
      MustBeDatetimeOrRelativeAsWritten(v) == Failure(IndexError) && MustBeDatetimeOrRelative(v) == Failure(NotATime(v.typeName))
  {
  }

  /** A concrete input that shows the wrong exception: a truthy integer. */
  lemma IntegerRaisesIndexError()
    ensures MustBeDatetimeOrRelativeAsWritten(LOther("int", true)) == Failure(IndexError)
    ensures MustBeDatetimeOrRelative(LOther("int", true)) == Failure(NotATime("int"))
  {
  }

  /** `must_not_start_after_end`: when both ends are datetimes the start may not
      be later than the end; anything else (a missing end, a relative string)
      passes unchecked. The pair comes back unchanged. */
  function MustNotStartAfterEnd(start: Loose, end: Loose): (r: Result<(Loose, Loose), TimeError>)
    ensures r.Success? ==> r.value == (start, end)
    ensures !(start.LDateTime? && end.LDateTime?) ==> r.Success?
    ensures start.LDateTime? && end.LDateTime? ==>
      (r.Success? <==> Before(end.dt, start.dt) == Success(false))
    ensures r.Failure? ==> r.error == (if start.dt.Aware() != end.dt.Aware() then Incomparable else StartAfterEnd)
  {
    if start.LDateTime? && end.LDateTime? then
      match Before(end.dt, start.dt)
      case Failure(_) => Failure(Incomparable)
      case Success(later) => if later then Failure(StartAfterEnd) else Success((start, end))
    else Success((start, end))
  }

  /** A checked range with both ends set never runs backwards. */
  lemma CheckedRangeOrdered(start: DateTime, end: DateTime)
    requires MustNotStartAfterEnd(LDateTime(start), LDateTime(end)).Success?
    ensures start.Instant() < end.Instant() || (start.Instant() == end.Instant() && start.micro <= end.micro)
  {
  }
}
