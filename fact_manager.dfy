/** The fact manager of nark (nark/managers/fact.py): the minimum-duration
    check of `save`, the bounds of `get_all`, finding and stopping the ongoing
    fact, and `insert_forcefully`, which makes room for a fact by trimming,
    deleting, splitting or squashing the stored facts it overlaps.

    The backend is a sequence of rows; its time-window queries are the
    filters the SQLAlchemy backend applies (nark/backends/sqlalchemy/managers/
    fact.py). Every row a query returns becomes a new fact object, so the
    conflicts the manager edits are objects of its own. */
module FactManager {
  import opened Wrappers
  import opened Clock
  import TimeHelpers
  import opened FactItem

  datatype ManagerError =
    | Item(error: FactError)         // from a fact setter or `delta()`
    | TooShort(minDelta: int)        // ValueError: shorter than `fact_min_delta` seconds
    | TypeMismatch(what: string)     // TypeError
    | BadRange                       // ValueError: an end that is not after its start
    | NoAttribute(name: string)      // AttributeError: a helper the time module does not define
    | Integrity                      // IntegrityError: several facts where at most one may be
    | NoOngoing                      // KeyError: no ongoing fact
    | ManyOngoing                    // Exception: more than one ongoing fact
    | NoReference                    // ValueError: no time to search from, or nothing before it
    | AssertionFailed(what: string)  // an `assert` statement of the source failing

  /** A time as the backend stores it: None or a naive datetime. */
  predicate Moment(v: Loose) {
    v.LNone? || (v.LDateTime? && !v.dt.Aware())
  }

  /** A stored fact: a positive key, the setters' normal form, stored times. */
  predicate RowOk(r: FactRec) {
    r.pk.Some? && r.pk.value > 0 && RecValid(r) && Moment(r.start) && Moment(r.end)
  }

  predicate RowsOk(rows: seq<FactRec>) {
    forall r | r in rows :: RowOk(r)
  }

  /** The position of a datetime on the time line, in microseconds. */
  function At(v: Loose): int
    requires v.LDateTime?
  {
    Micros(v.dt)
  }

  // ---- save ----

  /** `enforce_fact_min_delta`, the check `save` makes before handing the fact
      to the backend. */
  function EnforceFactMinDelta(f: FactRec, minDelta: int, now: DateTime): (r: Result<(), ManagerError>)
    ensures !f.end.Truthy() || minDelta == 0 ==> r.Success?
    ensures f.end.Truthy() && minDelta != 0 ==>
      (r.Success? <==> RecDelta(f, now).Success? && RecDelta(f, now).value >= minDelta * 1000000)
    ensures r.Failure? && RecDelta(f, now).Success? ==> r.error == TooShort(minDelta)
  {
    if !f.end.Truthy() || minDelta == 0 then Success(())
    else
      match RecDelta(f, now)
      case Failure(e) => Failure(Item(e))
      case Success(us) => if us >= minDelta * 1000000 then Success(()) else Failure(TooShort(minDelta))
  }

  /** With a positive minimum, a fact that ends where it starts is refused and
      one that lasts the minimum is kept; the clock plays no part once the
      fact has an end. */
  lemma MinDeltaBoundary(f: FactRec, minDelta: int, now: DateTime, later: DateTime)
    requires minDelta > 0 && f.start.LDateTime? && f.end.LDateTime? && f.start.dt.Aware() == f.end.dt.Aware()
    ensures Micros(f.end.dt) == Micros(f.start.dt) ==> EnforceFactMinDelta(f, minDelta, now) == Failure(TooShort(minDelta))
    ensures Micros(f.end.dt) - Micros(f.start.dt) == minDelta * 1000000 ==> EnforceFactMinDelta(f, minDelta, now).Success?
    ensures EnforceFactMinDelta(f, minDelta, now) == EnforceFactMinDelta(f, minDelta, later)
  {
  }

  // ---- get_all ----

  type TimeOfDay = t: int | 0 <= t < SecondsPerDay

  /** A `since` or `until` argument: None, a datetime, a date (its day
      number), a time of day (with its tzinfo's UTC offset when aware), or a
      value of some other type. */
  datatype Bound = NoBound | AtDateTime(dt: DateTime) | OnDate(day: int)
                 | AtTime(time: TimeOfDay, micro: Microsecond, offset: Option<int>)
                 | OtherBound(typeName: string)

  /** `datetime.combine(day, t)`: the time's tzinfo is carried over. */
  function Combine(day: int, time: TimeOfDay, micro: Microsecond, offset: Option<int>): DateTime {
    DateTime(day * SecondsPerDay + time, micro, offset)
  }

  /** `_get_all_verify_since` as written: a date is combined with the text
      '00:00:00', which `datetime.combine` refuses with a TypeError. */
  function VerifySinceAsWritten(since: Bound, today: int): (r: Result<Option<DateTime>, ManagerError>)
    ensures r.Failure? <==> since.OnDate? || since.OtherBound?
    ensures !since.OnDate? ==> r == VerifySince(since, today)
  {
    match since
    case NoBound => Success(None)
    case AtDateTime(dt) => Success(Some(dt))
    case OnDate(_) => Failure(TypeMismatch("combine() argument 2 must be datetime.time, not str"))
    case AtTime(t, m, off) => Success(Some(Combine(today, t, m, off)))
    case OtherBound(_) => Failure(TypeMismatch("since"))
  }

  /** `_get_all_verify_until` as written: a date goes through
      `time_helpers.end_day_to_datetime`, which nark/helpers/time.py does not
      define. */
  function VerifyUntilAsWritten(until: Bound, today: int): (r: Result<Option<DateTime>, ManagerError>)
    ensures r.Failure? <==> until.OnDate? || until.OtherBound?
    ensures until.OnDate? ==> r == Failure(NoAttribute("end_day_to_datetime"))
    ensures !until.OnDate? ==> r == VerifyUntil(until, today, None)
  {
    match until
    case NoBound => Success(None)
    case AtDateTime(dt) => Success(Some(dt))
    case OnDate(_) => Failure(NoAttribute("end_day_to_datetime"))
    case AtTime(t, m, off) => Success(Some(Combine(today, t, m, off)))
    case OtherBound(_) => Failure(TypeMismatch("until"))
  }

  /** `_get_all_verify_since`, a date meaning its midnight. */
  function VerifySince(since: Bound, today: int): (r: Result<Option<DateTime>, ManagerError>)
    ensures r.Failure? <==> since.OtherBound?
    ensures r.Failure? ==> r.error == TypeMismatch("since")
    ensures r.Success? ==> (r.value.None? <==> since.NoBound?)
    ensures since.AtDateTime? ==> r == Success(Some(since.dt))
    ensures since.OnDate? ==>
      var dt := r.value.value; !dt.Aware() && dt.Day() == since.day && dt.TimeOfDay() == 0 && dt.micro == 0
    ensures since.AtTime? ==>
      var dt := r.value.value; dt.offset == since.offset && dt.Day() == today && dt.TimeOfDay() == since.time && dt.micro == since.micro
  {
    match since
    case NoBound => Success(None)
    case AtDateTime(dt) => Success(Some(dt))
    case OnDate(d) => Success(Some(Combine(d, 0, 0, None)))
    case AtTime(t, m, off) => Success(Some(Combine(today, t, m, off)))
    case OtherBound(_) => Failure(TypeMismatch("since"))
  }

  /** `_get_all_verify_until`, a date meaning the end of the work day that
      starts on it (`day_end_datetime` with the configured `day_start`). */
  function VerifyUntil(until: Bound, today: int, dayStart: Option<TimeOfDay>): (r: Result<Option<DateTime>, ManagerError>)
    ensures r.Failure? <==> until.OtherBound?
    ensures r.Failure? ==> r.error == TypeMismatch("until")
    ensures r.Success? ==> (r.value.None? <==> until.NoBound?)
    ensures until.AtDateTime? ==> r == Success(Some(until.dt))
    ensures until.OnDate? ==>
      var dt, dayFrom := r.value.value, until.day * SecondsPerDay + (if dayStart.Some? then dayStart.value as int else 0);
      !dt.Aware() && dt.micro == 0 && dayFrom < dt.seconds && dt.seconds == dayFrom + SecondsPerDay - 1
    ensures until.AtTime? ==>
      var dt := r.value.value; dt.offset == until.offset && dt.Day() == today && dt.TimeOfDay() == until.time && dt.micro == until.micro
  {
    match until
    case NoBound => Success(None)
    case AtDateTime(dt) => Success(Some(dt))
    case OnDate(d) =>
      var startTime: Option<int> := if dayStart.Some? then Some(dayStart.value as int) else None;
      Success(Some(DateTime(TimeHelpers.DayEndDatetime(d, startTime), 0, None)))
    case AtTime(t, m, off) => Success(Some(Combine(today, t, m, off)))
    case OtherBound(_) => Failure(TypeMismatch("until"))
  }

  /** `_get_all_verify_since_until`: both bounds normalised, since first; with
      both present `until` must be later than `since`. */
  function CheckRange(since: Result<Option<DateTime>, ManagerError>, until: Result<Option<DateTime>, ManagerError>)
    : (r: Result<(Option<DateTime>, Option<DateTime>), ManagerError>)
    ensures since.Failure? ==> r == Failure(since.error)
    ensures since.Success? && until.Failure? ==> r == Failure(until.error)
    ensures r.Success? ==> r.value == (since.value, until.value)
    ensures since.Success? && until.Success? && since.value.Some? && until.value.Some? ==>
      (r.Success? <==> Before(since.value.value, until.value.value) == Success(true))
    ensures since.Success? && until.Success? && (since.value.None? || until.value.None?) ==> r.Success?
  {
    if since.Failure? then Failure(since.error)
    else if until.Failure? then Failure(until.error)
    else if since.value.Some? && until.value.Some? then
      match Before(since.value.value, until.value.value)
      case Failure(_) => Failure(TypeMismatch("<="))
      case Success(ordered) => if ordered then Success((since.value, until.value)) else Failure(BadRange)
    else Success((since.value, until.value))
  }

  /** `get_all`'s bound checks as the code is written. */
  function GetAllBoundsAsWritten(since: Bound, until: Bound, today: int): (r: Result<(Option<DateTime>, Option<DateTime>), ManagerError>)
    ensures since.OnDate? ==> r == Failure(TypeMismatch("combine() argument 2 must be datetime.time, not str"))
    ensures !since.OnDate? && !since.OtherBound? && until.OnDate? ==> r == Failure(NoAttribute("end_day_to_datetime"))
  {
    CheckRange(VerifySinceAsWritten(since, today), VerifyUntilAsWritten(until, today))
  }

  /** `get_all`'s bound checks as evidently intended: both bounds
      normalised, and with both present `until` must come after `since`. */
  function GetAllBounds(since: Bound, until: Bound, today: int, dayStart: Option<TimeOfDay>)
    : (r: Result<(Option<DateTime>, Option<DateTime>), ManagerError>)
    ensures r.Success? ==>
      && !since.OtherBound? && !until.OtherBound?
      && r.value == (VerifySince(since, today).value, VerifyUntil(until, today, dayStart).value)
    ensures r.Success? && r.value.0.Some? && r.value.1.Some? ==> Before(r.value.0.value, r.value.1.value) == Success(true)
    ensures since.OtherBound? ==> r == Failure(TypeMismatch("since"))
    ensures !since.OtherBound? && until.OtherBound? ==> r == Failure(TypeMismatch("until"))
    ensures !since.OtherBound? && !until.OtherBound? && (since.NoBound? || until.NoBound?) ==> r.Success?
  {
    CheckRange(VerifySince(since, today), VerifyUntil(until, today, dayStart))
  }

  /** The bounds as written and as intended: datetimes pass through untouched
      and a range that does not move forward is refused either way; only a
      date, which the code as written cannot handle, differs. */
  lemma GetAllBoundsAgree(since: Bound, until: Bound, today: int, dayStart: Option<TimeOfDay>)
    requires !since.OnDate? && !until.OnDate?
    ensures GetAllBoundsAsWritten(since, until, today) == GetAllBounds(since, until, today, dayStart)
    ensures since.AtDateTime? && until.AtDateTime? && !since.dt.Aware() && !until.dt.Aware() ==>
      (GetAllBounds(since, until, today, dayStart) == Success((Some(since.dt), Some(until.dt)))
       <==> Micros(since.dt) < Micros(until.dt))
  {
  }

  /** A time bound keeps its tzinfo through `combine`: an aware time of day
      as `since` against a naive datetime as `until` cannot be compared, and
      the check ends in the TypeError of `<=`. */
  lemma AwareTimeAgainstNaive(t: TimeOfDay, m: Microsecond, offset: int, until: DateTime, today: int, dayStart: Option<TimeOfDay>)
    requires !until.Aware()
    ensures GetAllBounds(AtTime(t, m, Some(offset)), AtDateTime(until), today, dayStart) == Failure(TypeMismatch("<="))
  {
    assert VerifySince(AtTime(t, m, Some(offset)), today).value.value.Aware();
  }

  /** Asking for the facts of one day by date: refused as written, whatever the
      dates, while the intended version accepts the day from its midnight to
      the end of its work day. */
  lemma OneDayByDate(day: int, today: int, dayStart: Option<TimeOfDay>)
    ensures GetAllBoundsAsWritten(OnDate(day), OnDate(day), today).Failure?
    ensures GetAllBoundsAsWritten(OnDate(day), NoBound, today).Failure?
    ensures GetAllBoundsAsWritten(NoBound, OnDate(day), today).Failure?
    ensures GetAllBounds(OnDate(day), OnDate(day), today, dayStart)
      == Success((Some(Combine(day, 0, 0, None)),
                  Some(DateTime(TimeHelpers.DayEndDatetime(day, if dayStart.Some? then Some(dayStart.value as int) else None), 0, None))))
  {
  }

  // ---- the backend's time-window queries ----

  /** The filters of the backend's queries, each on live rows only. A key
      excludes the fact being edited, when it has a (truthy) key. */
  datatype Window =
    | StartingAt(t: int, pk: Option<int>)      // start == t
    | EndingAt(t: int, pk: Option<int>)        // end == t
    | StartingBefore(t: int, pk: Option<int>)  // start < t
    | EndingAfter(t: int, pk: Option<int>)     // end > t
    | Within(s: int, e: int)                   // s <= start and end <= e
    | Around(t: int)                           // start < t < end, or start < t with no end
    | Endless                                  // no start or no end

  predicate Excluded(r: FactRec, pk: Option<int>) {
    pk.Some? && pk.value != 0 && r.pk == pk
  }

  predicate Matches(w: Window, r: FactRec) {
    !r.deleted &&
    match w
    case StartingAt(t, pk) => r.start.LDateTime? && At(r.start) == t && !Excluded(r, pk)
    case EndingAt(t, pk) => r.end.LDateTime? && At(r.end) == t && !Excluded(r, pk)
    case StartingBefore(t, pk) => r.start.LDateTime? && At(r.start) < t && !Excluded(r, pk)
    case EndingAfter(t, pk) => r.end.LDateTime? && At(r.end) > t && !Excluded(r, pk)
    case Within(s, e) => r.start.LDateTime? && r.end.LDateTime? && s <= At(r.start) && At(r.end) <= e
    case Around(t) => r.start.LDateTime? && At(r.start) < t && (r.end.LNone? || (r.end.LDateTime? && At(r.end) > t))
    case Endless => r.start.LNone? || r.end.LNone?
  }

  /** The rows a query selects, in table order. */
  function Select(rows: seq<FactRec>, w: Window): (r: seq<FactRec>)
    ensures forall x :: x in r <==> x in rows && Matches(w, x)
    ensures |r| <= |rows|
  {
    if rows == [] then []
    else (if Matches(w, rows[0]) then [rows[0]] else []) + Select(rows[1..], w)
  }

  /** `order_by(desc(start)).limit(1)`: the row with the latest start. */
  function Latest(xs: seq<FactRec>): (r: FactRec)
    requires xs != [] && forall x | x in xs :: x.start.LDateTime?
    ensures r in xs && forall x | x in xs :: At(x.start) <= At(r.start)
  {
    if |xs| == 1 then xs[0]
    else
      var rest := Latest(xs[1..]);
      if At(rest.start) <= At(xs[0].start) then xs[0] else rest
  }

  /** `order_by(asc(end)).limit(1)`: the row with the earliest end. */
  function Earliest(xs: seq<FactRec>): (r: FactRec)
    requires xs != [] && forall x | x in xs :: x.end.LDateTime?
    ensures r in xs && forall x | x in xs :: At(r.end) <= At(x.end)
  {
    if |xs| == 1 then xs[0]
    else
      var rest := Earliest(xs[1..]);
      if At(xs[0].end) <= At(rest.end) then xs[0] else rest
  }

  /** `count() > 1` raises, otherwise `one_or_none()`. */
  function AtMostOne(found: seq<FactRec>): (r: Result<Option<FactRec>, ManagerError>)
    ensures r.Failure? <==> |found| > 1
    ensures r.Failure? ==> r.error == Integrity
    ensures r.Success? ==> forall x | x in found :: r.value == Some(x)
    ensures r.Success? && r.value.Some? ==> r.value.value in found
    ensures r == Success(None) <==> found == []
  {
    if |found| > 1 then Failure(Integrity)
    else if found == [] then Success(None)
    else Success(Some(found[0]))
  }

  /** `starting_at`: the live fact starting when `f` starts, if any. */
  function StartingAtQuery(rows: seq<FactRec>, f: FactRec): (r: Result<Option<FactRec>, ManagerError>)
    requires Moment(f.start)
    ensures f.start.LNone? ==> r == Failure(NoReference)
    ensures r.Success? ==> forall x | x in rows && Matches(StartingAt(At(f.start), f.pk), x) :: r.value == Some(x)
    ensures r.Success? && r.value.Some? ==> r.value.value in rows && Matches(StartingAt(At(f.start), f.pk), r.value.value)
    ensures r.Failure? ==> r.error == NoReference || r.error == Integrity
  {
    if f.start.LNone? then Failure(NoReference)
    else AtMostOne(Select(rows, StartingAt(At(f.start), f.pk)))
  }

  /** `ending_at`: the live fact ending when `f` ends, if any. */
  function EndingAtQuery(rows: seq<FactRec>, f: FactRec): (r: Result<Option<FactRec>, ManagerError>)
    requires Moment(f.end)
    ensures f.end.LNone? ==> r == Failure(NoReference)
    ensures r.Success? ==> forall x | x in rows && Matches(EndingAt(At(f.end), f.pk), x) :: r.value == Some(x)
    ensures r.Success? && r.value.Some? ==> r.value.value in rows && Matches(EndingAt(At(f.end), f.pk), r.value.value)
    ensures r.Failure? ==> r.error == NoReference || r.error == Integrity
  {
    if f.end.LNone? then Failure(NoReference)
    else AtMostOne(Select(rows, EndingAt(At(f.end), f.pk)))
  }

  /** `antecedent(fact)`: the live fact starting last before `f` starts (or,
      without a start, before it ends). */
  function Antecedent(rows: seq<FactRec>, f: FactRec): (r: Result<Option<FactRec>, ManagerError>)
    requires Moment(f.start) && Moment(f.end)
    ensures r.Failure? <==> f.start.LNone? && f.end.LNone?
    ensures r.Failure? ==> r.error == NoReference
    ensures r.Success? ==>
      var w := StartingBefore(if f.start.LDateTime? then At(f.start) else At(f.end), f.pk);
      && (r.value.None? <==> forall x | x in rows :: !Matches(w, x))
      && (r.value.Some? ==>
            (r.value.value in rows && Matches(w, r.value.value)
             && forall x | x in rows && Matches(w, x) :: At(x.start) <= At(r.value.value.start)))
  {
    if f.start.LNone? && f.end.LNone? then Failure(NoReference)
    else
      var found := Select(rows, StartingBefore(if f.start.LDateTime? then At(f.start) else At(f.end), f.pk));
      if found == [] then Success(None) else Success(Some(Latest(found)))
  }

  /** `subsequent(fact)`: the live fact ending first after `f` ends (or,
      without an end, after it starts). */
  function Subsequent(rows: seq<FactRec>, f: FactRec): (r: Result<Option<FactRec>, ManagerError>)
    requires Moment(f.start) && Moment(f.end)
    ensures r.Failure? <==> f.start.LNone? && f.end.LNone?
    ensures r.Failure? ==> r.error == NoReference
    ensures r.Success? ==>
      var w := EndingAfter(if f.end.LDateTime? then At(f.end) else At(f.start), f.pk);
      && (r.value.None? <==> forall x | x in rows :: !Matches(w, x))
      && (r.value.Some? ==>
            (r.value.value in rows && Matches(w, r.value.value)
             && forall x | x in rows && Matches(w, x) :: At(r.value.value.end) <= At(x.end)))
  {
    if f.start.LNone? && f.end.LNone? then Failure(NoReference)
    else
      var found := Select(rows, EndingAfter(if f.end.LDateTime? then At(f.end) else At(f.start), f.pk));
      if found == [] then Success(None) else Success(Some(Earliest(found)))
  }

  /** `surrounding(t)`: the live fact running across `t`; more than one is an
      integrity error. */
  function Surrounding(rows: seq<FactRec>, t: int): (r: Result<seq<FactRec>, ManagerError>)
    ensures r.Success? ==> |r.value| <= 1 && forall x :: x in r.value <==> x in rows && Matches(Around(t), x)
    ensures r.Failure? ==> r.error == Integrity
  {
    var found := Select(rows, Around(t));
    if |found| > 1 then Failure(Integrity) else Success(found)
  }

  /** `endless()`: the live facts missing a start or an end. */
  function EndlessRows(rows: seq<FactRec>): seq<FactRec> {
    Select(rows, Endless)
  }

  // ---- the ongoing fact ----

  /** `get_current_fact`: the one live fact without an end (or start). */
  function GetCurrentFact(rows: seq<FactRec>): (r: Result<FactRec, ManagerError>)
    ensures r.Success? ==> r.value in rows && !r.value.deleted && (r.value.start.LNone? || r.value.end.LNone?)
    ensures r.Success? ==> forall x | x in rows && !x.deleted && (x.start.LNone? || x.end.LNone?) :: x == r.value
    ensures r == Failure(NoOngoing) <==> forall x | x in rows :: x.deleted || (!x.start.LNone? && !x.end.LNone?)
    ensures r.Failure? ==> r.error == NoOngoing || r.error == ManyOngoing
  {
    var found := EndlessRows(rows);
    if |found| > 1 then
      assert found[0] in found;
      Failure(ManyOngoing)
    else if found == [] then Failure(NoOngoing)
    else Success(found[0])
  }

  /** The `end_hint` of `stop_current_fact`: none, a datetime, a timedelta in
      microseconds, or a value of another type. */
  datatype EndHint = NoHint | HintAt(dt: DateTime) | HintIn(micros: int) | HintOther(typeName: string)

  /** `datetime + timedelta`. */
  function AddMicros(dt: DateTime, us: int): (r: DateTime)
    ensures Micros(r) == Micros(dt) + us * 1 && r.offset == dt.offset
  {
    var total := dt.seconds * 1000000 + dt.micro + us;
    DateTime(total / 1000000, total % 1000000, dt.offset)
  }

  /** The end `stop_current_fact` settles on: the hinted datetime, `now`
      moved by a non-zero timedelta, or `now`. */
  function HintedEnd(hint: EndHint, now: DateTime): (r: Result<DateTime, ManagerError>)
    ensures r.Failure? <==> hint.HintOther?
    ensures hint.HintAt? ==> r == Success(hint.dt)
    ensures hint.HintIn? ==> r.Success? && Micros(r.value) == Micros(now) + hint.micros
    ensures hint.NoHint? ==> r == Success(now)
  {
    match hint
    case NoHint => Success(now)
    case HintAt(dt) => Success(dt)
    case HintIn(us) => if us != 0 then Success(AddMicros(now, us)) else Success(now)
    case HintOther(_) => Failure(TypeMismatch("end_hint"))
  }

  /** `stop_current_fact`: the ongoing fact, ended through the end setter and
      passed through `save`'s duration check. A hint of the wrong type, an
      ongoing fact that is missing or not unique, or an end before the start
      is refused. */
  function StopCurrentFact(rows: seq<FactRec>, hint: EndHint, now: DateTime, minDelta: int): (r: Result<FactRec, ManagerError>)
    requires RowsOk(rows)
    ensures hint.HintOther? ==> r == Failure(TypeMismatch("end_hint"))
    ensures !hint.HintOther? && GetCurrentFact(rows).Failure? ==> r == Failure(GetCurrentFact(rows).error)
    ensures r.Success? ==>
      var current, end := GetCurrentFact(rows).value, HintedEnd(hint, now).value;
      && r.value == current.(end := LDateTime(end.(micro := 0)))
      && current.start.LDateTime? && Before(end, current.start.dt) == Success(false)
      && EnforceFactMinDelta(r.value, minDelta, now).Success?
    ensures !hint.HintOther? && GetCurrentFact(rows).Success? && GetCurrentFact(rows).value.start.LDateTime?
            && Before(HintedEnd(hint, now).value, GetCurrentFact(rows).value.start.dt) == Success(true)
            ==> r == Failure(BadRange)
    ensures !hint.HintOther? && GetCurrentFact(rows).Success?
            && (!GetCurrentFact(rows).value.start.LDateTime?
                || Before(HintedEnd(hint, now).value, GetCurrentFact(rows).value.start.dt).Failure?)
            ==> r == Failure(TypeMismatch(">"))
    ensures !hint.HintOther? && GetCurrentFact(rows).Success? ==>
      var current, end := GetCurrentFact(rows).value, HintedEnd(hint, now).value;
      current.start.LDateTime? && Before(end, current.start.dt) == Success(false)
      && EnforceFactMinDelta(current.(end := LDateTime(end.(micro := 0))), minDelta, now).Success?
      ==> r == Success(current.(end := LDateTime(end.(micro := 0))))
  {
    match HintedEnd(hint, now)
    case Failure(e) => Failure(e)
    case Success(end) =>
      match GetCurrentFact(rows)
      case Failure(e) => Failure(e)
      case Success(current) =>
        if !current.start.LDateTime? then Failure(TypeMismatch(">"))
        else
          match Before(end, current.start.dt)
          case Failure(_) => Failure(TypeMismatch(">"))
          case Success(early) =>
            if early then Failure(BadRange)
            else
              var stopped := current.(end := TimeHelpers.MustBeDatetimeOrRelative(LDateTime(end)).value);
              match EnforceFactMinDelta(stopped, minDelta, now)
              case Failure(e) => Failure(e)
              case Success(_) => Success(stopped)
  }
}
