/** ISO 8601 rendering of datetimes with a choice of precision
    (nark/helpers/format_time.py). The model builds the `strftime` pattern and
    the datetime it is applied to; `strftime` itself is not part of the model. */
module FormatTime {
  import opened Wrappers
  import opened Clock
  import PyText

  /** `ValueError` for a `timespec` outside the six known ones. */
  datatype TimespecError = InvalidTimespec(timespec: string)

  /** What `strftime` is asked for: the pattern and the datetime it renders. */
  datatype IsoRendering = IsoRendering(pattern: string, moment: DateTime)

  /** The result of the `isoformat_tz*` wrappers: a rendering for a datetime,
      the argument itself for anything else. */
  datatype Rendered = Iso(rendering: IsoRendering) | Unchanged(value: Loose)

  const KnownTimespecs: seq<string> := ["auto", "hours", "minutes", "seconds", "milliseconds", "microseconds"]

  /** `_format_timespec`: the time part of the pattern. `auto` means seconds for
      a value without microseconds, microseconds otherwise; milliseconds are the
      microseconds floored to three zero-padded digits. */
  function FormatTimespec(micro: Microsecond, timespec: string): (r: Result<string, TimespecError>)
    ensures r.Failure? <==> timespec !in KnownTimespecs
    ensures r.Failure? ==> r.error == InvalidTimespec(timespec)
    ensures timespec == "auto" ==> r == Success(if micro == 0 then "%H:%M:%S" else "%H:%M:%S.%f")
    ensures r.Success? ==> |r.value| >= 2 && r.value[..2] == "%H"
    ensures timespec == "milliseconds" ==>
      r.Success? && |r.value| == 12 && r.value[..9] == "%H:%M:%S."
      && PyText.AllDigits(r.value[9..]) && PyText.DigitsValue(r.value[9..]) == micro / 1000
  {
    var spec := if timespec == "auto" then (if micro == 0 then "seconds" else "microseconds") else timespec;
    if spec == "hours" then Success("%H")
    else if spec == "minutes" then Success("%H:%M")
    else if spec == "seconds" then Success("%H:%M:%S")
    else if spec == "milliseconds" then
      var msec := PyText.ZeroPad(micro / 1000, 3);
      PyText.ZeroPadRoundTrip(micro / 1000, 3);
      assert |PyText.NatDigits(micro / 1000)| <= 3 by { ThreeDigits(micro / 1000); }
      var p := "%H:%M:%S." + msec;
      assert p[9..] == msec;
      Success(p)
    else if spec == "microseconds" then Success("%H:%M:%S.%f")
    else Failure(InvalidTimespec(timespec))
  }

  lemma ThreeDigits(n: nat)
    requires n < 1000
    ensures |PyText.NatDigits(n)| <= 3
  {
    if n >= 10 {
      assert |PyText.NatDigits(n)| == |PyText.NatDigits(n / 10)| + 1;
      if n / 10 >= 10 {
        assert |PyText.NatDigits(n / 10)| == |PyText.NatDigits(n / 10 / 10)| + 1;
      }
    }
  }

  /** `isoformat`: the date, the separator, the time part and, for an aware
      value when asked for, the `%z` offset. An aware value rendered without
      its offset is first moved to UTC; a naive value is rendered as it is. */
  function Isoformat(dt: DateTime, sep: string, timespec: string, includeTz: bool): (r: Result<IsoRendering, TimespecError>)
    ensures r.Failure? <==> timespec !in KnownTimespecs
    ensures r.Success? ==> var p := r.value.pattern; var t := FormatTimespec(dt.micro, timespec).value;
      |p| >= 8 + |sep| && p[..8 + |sep|] == "%Y-%m-%d" + sep
      && p == "%Y-%m-%d" + sep + t + (if dt.Aware() && includeTz then "%z" else "")
    ensures r.Success? ==> r.value.moment.Instant() == dt.Instant() && r.value.moment.micro == dt.micro
    ensures r.Success? && dt.Aware() && !includeTz ==> r.value.moment.offset == Some(0)
    ensures r.Success? && !(dt.Aware() && !includeTz) ==> r.value.moment == dt
  {
    var timecomp :- FormatTimespec(dt.micro, timespec);
    var tzcomp := if dt.Aware() && includeTz then "%z" else "";
    var moment := if dt.Aware() && !includeTz then DateTime(dt.Instant(), dt.micro, Some(0)) else dt;
    Success(IsoRendering("%Y-%m-%d" + sep + timecomp + tzcomp, moment))
  }

  /** `isoformat_tzinfo`: a datetime is rendered with its offset, anything else
      is handed back. */
  function IsoformatTzinfo(v: Loose, sep: string, timespec: string): (r: Result<Rendered, TimespecError>)
    ensures !v.LDateTime? ==> r == Success(Unchanged(v))
    ensures v.LDateTime? ==> r.Failure? == (timespec !in KnownTimespecs)
    ensures v.LDateTime? && r.Success? ==> r.value.Iso? && r.value.rendering.moment == v.dt
  {
    if v.LDateTime? then
      var rendering :- Isoformat(v.dt, sep, timespec, true);
      Success(Iso(rendering))
    else Success(Unchanged(v))
  }

  /** `isoformat_tzless`: a datetime is rendered without an offset (in UTC when
      it is aware), anything else is handed back. */
  function IsoformatTzless(v: Loose, sep: string, timespec: string): (r: Result<Rendered, TimespecError>)
    ensures !v.LDateTime? ==> r == Success(Unchanged(v))
    ensures v.LDateTime? ==> r.Failure? == (timespec !in KnownTimespecs)
    ensures v.LDateTime? && r.Success? ==>
      r.value.Iso? && r.value.rendering.moment.Instant() == v.dt.Instant()
      && r.value.rendering.moment.offset == (if v.dt.Aware() then Some(0) else None)
  {
    if v.LDateTime? then
      var rendering :- Isoformat(v.dt, sep, timespec, false);
      Success(Iso(rendering))
    else Success(Unchanged(v))
  }

  /** Without an offset in the pattern, the rendered clock reading is the UTC
      one, so two aware values for the same instant render alike. */
  lemma TzlessIgnoresOffset(a: DateTime, b: DateTime, sep: string, timespec: string)
    requires a.Aware() && b.Aware() && a.Instant() == b.Instant() && a.micro == b.micro
    ensures Isoformat(a, sep, timespec, false) == Isoformat(b, sep, timespec, false)
  {
  }
}
