/** Clock-time and relative-time notation used when a fact's time is written
    relative to another time (nark/helpers/dated.py). Digits are the ASCII ones. */
module Dated {
  import opened Wrappers
  import opened Clock
  import PyText

  /** The three groups `parse_clock_time` hands back, still as text; the seconds
      are "0" when the clock time leaves them out. */
  datatype ClockTime = ClockTime(hours: string, minutes: string, seconds: string)

  /** The errors of the clock conversions: `int()` of a non-number, or a field
      `datetime.replace` refuses. Both are ValueErrors in the source. */
  datatype DatedError = NotANumber | OutOfRange

  /** A signed number of minutes and whether a minus sign was written (so that
      "-0" is told apart from "0"). */
  datatype Relative = Relative(minutes: int, negative: bool)

  /** `$` matches at the end and also just before a final newline: the part of
      the text a `^...$` pattern has to cover. */
  function Body(s: string): (b: string)
    ensures b == s || (s == b + "\n")
  {
    if |s| > 0 && s[|s| - 1] == '\n' then s[..|s| - 1] else s
  }

  /** The length of the run of digits the text starts with. */
  function DigitRun(s: string): (n: nat)
    ensures n <= |s| && PyText.AllDigits(s[..n])
    ensures n < |s| ==> !PyText.IsDigit(s[n])
  {
    if s == [] || !PyText.IsDigit(s[0]) then 0
    else
      var k := DigitRun(s[1..]);
      assert s[..1 + k] == [s[0]] + s[1..][..k];
      1 + k
  }

  predicate Digits(s: string, n: nat) { |s| == n && PyText.AllDigits(s) }

  /** One way of reading the clock pattern: exactly `l` digits of hours, an
      optional colon, two digits of minutes, then nothing or `:` and two digits
      of seconds. */
  function ClockWithHours(b: string, l: nat): (r: Option<ClockTime>)
    ensures r.Some? ==>
      Digits(r.value.hours, l) && Digits(r.value.minutes, 2) && (Digits(r.value.seconds, 2) || r.value.seconds == "0")
    ensures r.Some? ==> b == ClockText(r.value, |b| > l && b[l] == ':')
  {
    var colon := |b| > l && b[l] == ':';
    var start := if colon then l + 1 else l;
    if |b| < start + 2 || !PyText.AllDigits(b[..l]) || !PyText.AllDigits(b[start..start + 2]) then None
    else if |b| == start + 2 then
      var ct := ClockTime(b[..l], b[start..start + 2], "0");
      assert b == ClockText(ct, colon);
      Some(ct)
    else if |b| == start + 5 && b[start + 2] == ':' && PyText.AllDigits(b[start + 3..]) then
      var ct := ClockTime(b[..l], b[start..start + 2], b[start + 3..]);
      assert b == ClockText(ct, colon);
      Some(ct)
    else None
  }

  /** The text a clock time is read from: hours, an optional colon, minutes and
      the seconds when they were written. */
  function ClockText(ct: ClockTime, colon: bool): string {
    ct.hours + (if colon then ":" else "") + ct.minutes + (if ct.seconds == "0" then "" else ":" + ct.seconds)
  }

  /** `parse_clock_time`: matches `H:MM`, `HH:MM`, `HMM`, `HHMM`, each optionally
      followed by `:SS`. The regular expression prefers two digits of hours. */
  function ParseClockTime(s: string): (r: Option<ClockTime>)
    ensures r.Some? ==>
      (Digits(r.value.hours, 1) || Digits(r.value.hours, 2)) && Digits(r.value.minutes, 2) && (Digits(r.value.seconds, 2) || r.value.seconds == "0")
    ensures r.Some? ==> Body(s) == ClockText(r.value, false) || Body(s) == ClockText(r.value, true)
  {
    var b := Body(s);
    var two := ClockWithHours(b, 2);
    if two.Some? then two else ClockWithHours(b, 1)
  }

  /** Every clock time the pattern accepts is read back from its own text, with
      or without the colon. */
  lemma ClockRoundTrip(ct: ClockTime, colon: bool)
    requires Digits(ct.hours, 1) || Digits(ct.hours, 2)
    requires Digits(ct.minutes, 2) && (Digits(ct.seconds, 2) || ct.seconds == "0")
    ensures ParseClockTime(ClockText(ct, colon)) == Some(ct)
  {
    var t := ClockText(ct, colon);
    assert Body(t) == t;
    var l := |ct.hours|;
    var start := if colon then l + 1 else l;
    assert t[..l] == ct.hours;
    assert t[start..start + 2] == ct.minutes;
    if ct.seconds != "0" {
      assert t[start + 3..] == ct.seconds;
    }
    if l == 1 {
      // Two digits of hours cannot be read: the second character is the colon,
      // or the minutes leave the wrong number of characters after them.
      if colon {
        assert t[1] == ':';
        assert !PyText.AllDigits(t[..2]);
      } else if ct.seconds != "0" {
        assert t[3] == ':';
        assert !PyText.AllDigits(t[2..4]);
      }
    }
  }

  function ClockValue(s: string): (r: Option<nat>)
    ensures r.Some? ==> s != [] && PyText.AllDigits(s) && r.value == PyText.DigitsValue(s)
  {
    if s != [] && PyText.AllDigits(s) then Some(PyText.DigitsValue(s)) else None
  }

  /** `dt_relative.replace(hour=…, minute=…, second=…)`: the same day, microsecond
      and tzinfo at the given clock reading, or a ValueError. */
  function ReplaceClock(ref: DateTime, ct: ClockTime): (r: Result<DateTime, DatedError>)
    ensures r.Success? ==> r.value.Day() == ref.Day() && r.value.micro == ref.micro && r.value.offset == ref.offset
    ensures r.Success? ==> r.value.TimeOfDay() == ClockSeconds(ct)
  {
    var h :- ClockValue(ct.hours).ToResult(NotANumber);
    var m :- ClockValue(ct.minutes).ToResult(NotANumber);
    var sec :- ClockValue(ct.seconds).ToResult(NotANumber);
    if h > 23 || m > 59 || sec > 59 then Failure(OutOfRange)
    else
      var r := DateTime(ref.Day() * SecondsPerDay + h * 3600 + m * 60 + sec, ref.micro, ref.offset);
      assert r.seconds / SecondsPerDay == ref.Day();
      Success(r)
  }

  /** The clock reading a clock time names, in seconds after midnight (zero when
      a field is not a number). */
  function ClockSeconds(ct: ClockTime): int {
    match (ClockValue(ct.hours), ClockValue(ct.minutes), ClockValue(ct.seconds))
    case (Some(h), Some(m), Some(s)) => h * 3600 + m * 60 + s
    case _ => 0
  }

  /** `datetime_from_clock_prior`: the latest moment at or before `ref` whose
      clock shows the given time. */
  function DatetimeFromClockPrior(ref: DateTime, ct: ClockTime): (r: Result<DateTime, DatedError>)
    ensures r.Success? <==> ReplaceClock(ref, ct).Success?
    ensures r.Success? ==>
      r.value.micro == ref.micro && r.value.offset == ref.offset
      && r.value.TimeOfDay() == ClockSeconds(ct)
      && r.value.seconds <= ref.seconds < r.value.seconds + SecondsPerDay
  {
    var newDt :- ReplaceClock(ref, ct);
    if newDt.seconds > ref.seconds then Success(newDt.(seconds := newDt.seconds - SecondsPerDay))
    else Success(newDt)
  }

  /** `datetime_from_clock_after`: the earliest moment at or after `ref` whose
      clock shows the given time. */
  function DatetimeFromClockAfter(ref: DateTime, ct: ClockTime): (r: Result<DateTime, DatedError>)
    ensures r.Success? <==> ReplaceClock(ref, ct).Success?
    ensures r.Success? ==>
      r.value.micro == ref.micro && r.value.offset == ref.offset
      && r.value.TimeOfDay() == ClockSeconds(ct)
      && r.value.seconds - SecondsPerDay < ref.seconds <= r.value.seconds
  {
    var newDt :- ReplaceClock(ref, ct);
    if newDt.seconds < ref.seconds then Success(newDt.(seconds := newDt.seconds + SecondsPerDay))
    else Success(newDt)
  }

  /** No earlier-or-equal moment with that clock reading comes after the one
      `datetime_from_clock_prior` picks. */
  lemma ClockPriorIsLatest(ref: DateTime, ct: ClockTime, x: int)
    requires DatetimeFromClockPrior(ref, ct).Success?
    requires x % SecondsPerDay == ClockSeconds(ct) && x <= ref.seconds
    ensures x <= DatetimeFromClockPrior(ref, ct).value.seconds
  {
    var r := DatetimeFromClockPrior(ref, ct).value.seconds;
    SameClockDifferByDays(x, r);
  }

  /** No later-or-equal moment with that clock reading comes before the one
      `datetime_from_clock_after` picks. */
  lemma ClockAfterIsEarliest(ref: DateTime, ct: ClockTime, x: int)
    requires DatetimeFromClockAfter(ref, ct).Success?
    requires x % SecondsPerDay == ClockSeconds(ct) && ref.seconds <= x
    ensures DatetimeFromClockAfter(ref, ct).value.seconds <= x
  {
    var r := DatetimeFromClockAfter(ref, ct).value.seconds;
    SameClockDifferByDays(x, r);
  }

  lemma SameClockDifferByDays(x: int, y: int)
    requires x % SecondsPerDay == y % SecondsPerDay
    ensures (x - y) % SecondsPerDay == 0
    ensures x < y ==> x <= y - SecondsPerDay
  {
    var qx, qy := x / SecondsPerDay, y / SecondsPerDay;
    assert x == qx * SecondsPerDay + x % SecondsPerDay;
    assert y == qy * SecondsPerDay + y % SecondsPerDay;
    assert x - y == (qx - qy) * SecondsPerDay;
    if x < y {
      assert qx < qy;
    }
  }

  /** The minutes part of the relative pattern: nothing, or one or two digits
      with an optional `m`. */
  function MinutesPart(s: string): (r: Option<Option<string>>)
    ensures r.Some? && r.value.Some? ==> 1 <= |r.value.value| <= 2 && PyText.AllDigits(r.value.value)
  {
    if s == [] then Some(None)
    else
      var n := DigitRun(s);
      var d := if n > 2 then 2 else n;
      if d == 0 then None
      else if s[d..] == [] || s[d..] == "m" then Some(Some(s[..d]))
      else None
  }

  /** `parse_relative_minutes`: an optional sign, optional hours ending in `h`,
      optional minutes (one or two digits, optional `m`). The count is negated
      for a minus sign. */
  function ParseRelativeMinutes(s: string): (r: Option<Relative>)
    ensures r.Some? ==> (r.value.negative <==> |s| > 0 && s[0] == '-')
    ensures r.Some? && !r.value.negative ==> r.value.minutes >= 0
    ensures r.Some? && r.value.negative ==> r.value.minutes <= 0
  {
    var b := Body(s);
    var signed := |b| > 0 && (b[0] == '-' || b[0] == '+');
    var rest := if signed then b[1..] else b;
    match UnsignedMinutes(rest)
    case None => None
    case Some(total) =>
      var negative := signed && b[0] == '-';
      Some(Relative(if negative then -(total as int) else total, negative))
  }

  /** The pattern after the sign: the number of minutes that optional hours
      ending in `h` and optional minutes spell. */
  function UnsignedMinutes(rest: string): (r: Option<nat>)
  {
    var n := DigitRun(rest);
    if n > 0 && n < |rest| && rest[n] == 'h' then WithHours(PyText.DigitsValue(rest[..n]), rest[n + 1..])
    else WithHours(0, rest)
  }

  /** The minutes part after the hours, added to the hours in minutes. */
  function WithHours(hours: nat, rest: string): (r: Option<nat>)
    ensures r.Some? <==> MinutesPart(rest).Some?
  {
    match MinutesPart(rest)
    case None => None
    case Some(mins) => Some((if mins.Some? then PyText.DigitsValue(mins.value) else 0) + hours * 60)
  }

  /** The relative notation `[-]<hours>h<MM>m` reads back as the signed number of
      minutes it was written from. */
  lemma {:induction false} RelativeRoundTrip(negative: bool, h: nat, m: nat)
    requires m < 100
    ensures ParseRelativeMinutes(RelativeText(negative, h, m)) == Some(Relative(if negative then -(h * 60 + m) else h * 60 + m, negative))
  {
    var rest := PyText.NatDigits(h) + ("h" + (PyText.ZeroPad(m, 2) + "m"));
    var sign := if negative then '-' else '+';
    UnsignedRoundTrip(h, m);
    assert rest[|rest| - 1] == 'm';
    SignedParse(sign, rest, h * 60 + m);
    assert RelativeText(negative, h, m) == [sign] + rest;
  }

  /** The unsigned part of the notation spells its hours and minutes. */
  lemma UnsignedRoundTrip(h: nat, m: nat)
    requires m < 100
    ensures UnsignedMinutes(PyText.NatDigits(h) + ("h" + (PyText.ZeroPad(m, 2) + "m"))) == Some(h * 60 + m)
  {
    var hd := PyText.NatDigits(h);
    var md := PyText.ZeroPad(m, 2);
    PyText.NatDigitsRoundTrip(h);
    MinutesRoundTrip(m);
    UnsignedWithHours(hd, md + "m");
    WithMinutes(h, md + "m", md);
  }

  /** The relative notation with a sign, hours and two digits of minutes:
      `+1h05m`, `-12h30m`. */
  function RelativeText(negative: bool, h: nat, m: nat): string {
    [if negative then '-' else '+'] + (PyText.NatDigits(h) + ("h" + (PyText.ZeroPad(m, 2) + "m")))
  }

  /** A sign followed by text that does not end in a newline: the sign applies
      to what the rest spells. */
  lemma SignedParse(sign: char, rest: string, t: nat)
    requires sign == '-' || sign == '+'
    requires rest != [] && rest[|rest| - 1] != '\n'
    requires UnsignedMinutes(rest) == Some(t)
    ensures ParseRelativeMinutes([sign] + rest) == Some(Relative(if sign == '-' then -(t as int) else t, sign == '-'))
  {
    var text := [sign] + rest;
    assert text[|text| - 1] == rest[|rest| - 1];
    assert Body(text) == text;
    assert text[0] == sign && text[1..] == rest;
  }

  /** The minutes part after the hours adds its minutes to them. */
  lemma WithMinutes(hours: nat, mt: string, md: string)
    requires MinutesPart(mt) == Some(Some(md))
    ensures WithHours(hours, mt) == Some(PyText.DigitsValue(md) + hours * 60)
  {
  }

  /** A run of hour digits and `h` leave the rest to the minutes part. */
  lemma UnsignedWithHours(hd: string, mt: string)
    requires hd != [] && PyText.AllDigits(hd)
    ensures UnsignedMinutes(hd + ("h" + mt)) == WithHours(PyText.DigitsValue(hd), mt)
  {
    HoursSplit(hd, mt);
  }

  /** Where the hours end in `hd + "h" + mt`. */
  lemma HoursSplit(hd: string, mt: string)
    requires hd != [] && PyText.AllDigits(hd)
    ensures var rest := hd + ("h" + mt);
      DigitRun(rest) == |hd| && |hd| < |rest| && rest[|hd|] == 'h' && rest[..|hd|] == hd && rest[|hd| + 1..] == mt
  {
    var rest := hd + ("h" + mt);
    DigitRunPrefix(hd, "h" + mt);
    assert rest[..|hd|] == hd;
    assert rest[|hd| + 1..] == mt;
  }

  /** Two zero-padded digits and an `m` read back as the minutes. */
  lemma MinutesRoundTrip(m: nat)
    requires m < 100
    ensures MinutesPart(PyText.ZeroPad(m, 2) + "m") == Some(Some(PyText.ZeroPad(m, 2)))
    ensures PyText.DigitsValue(PyText.ZeroPad(m, 2)) == m
  {
    var md := PyText.ZeroPad(m, 2);
    PyText.ZeroPadRoundTrip(m, 2);
    assert |md| == 2 by { TwoDigits(m); }
    DigitRunPrefix(md, "m");
    var s := md + "m";
    assert s[..2] == md && s[2..] == "m";
  }

  lemma TwoDigits(m: nat)
    requires m < 100
    ensures |PyText.NatDigits(m)| <= 2
  {
    if m >= 10 {
      assert |PyText.NatDigits(m)| == |PyText.NatDigits(m / 10)| + 1;
    }
  }

  lemma {:induction false} DigitRunPrefix(d: string, tail: string)
    requires PyText.AllDigits(d)
    requires tail == [] || !PyText.IsDigit(tail[0])
    ensures DigitRun(d + tail) == |d|
    decreases |d|
  {
    if d != [] {
      assert (d + tail)[1..] == d[1..] + tail;
      DigitRunPrefix(d[1..], tail);
    } else {
      assert d + tail == tail;
    }
  }

  /** "-0" keeps its sign even though the count is zero. */
  lemma MinusZero()
    ensures ParseRelativeMinutes("-0") == Some(Relative(0, true))
    ensures ParseRelativeMinutes("0") == Some(Relative(0, false))
  {
    DigitRunPrefix("0", "");
    assert "0" + "" == "0";
    assert "-0"[1..] == "0";
    assert "0"[..1] == "0" && "0"[1..] == [];
    assert MinutesPart("0") == Some(Some("0"));
    assert UnsignedMinutes("0") == Some(0);
  }
}
