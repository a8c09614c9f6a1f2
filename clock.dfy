/** Python `datetime` values as the model sees them: a wall-clock reading in
    whole seconds, its microsecond and, for an aware value, its UTC offset. */
module Clock {
  import opened Wrappers

  const SecondsPerDay: int := 86400

  type Microsecond = m: int | 0 <= m < 1000000

  /** `seconds` counts wall-clock seconds from a fixed midnight; `offset` is the
      tzinfo's UTC offset in seconds, absent for a naive value. */
  datatype DateTime = DateTime(seconds: int, micro: Microsecond, offset: Option<int>) {
    /** The calendar day the value falls on, as a day number. */
    function Day(): int { seconds / SecondsPerDay }

    /** The clock reading within that day, in seconds after midnight. */
    function TimeOfDay(): (t: int)
      ensures 0 <= t < SecondsPerDay && seconds == Day() * SecondsPerDay + t
    {
      seconds % SecondsPerDay
    }

    predicate Aware() { offset.Some? }

    /** The value's position on the UTC time line, in seconds (naive values are
        taken at face value). */
    function Instant(): int { if offset.Some? then seconds - offset.value else seconds }
  }

  /** Any Python value handed over where a datetime may be expected. */
  datatype Loose = LNone | LText(text: string) | LDateTime(dt: DateTime) | LOther(typeName: string, truthy: bool) {
    /** Python truthiness: None and the empty string are false, a datetime is true. */
    predicate Truthy() {
      match this
      case LNone => false
      case LText(t) => t != []
      case LDateTime(_) => true
      case LOther(_, b) => b
    }
  }

  /** Why two datetimes could not be ordered: Python refuses to compare a naive
      value with an aware one. */
  datatype CompareError = NaiveVersusAware

  /** Python's `a < b` on datetimes: by instant and microsecond when both are
      aware, by wall clock when both are naive. */
  function Before(a: DateTime, b: DateTime): (r: Result<bool, CompareError>)
    ensures r.Failure? <==> a.Aware() != b.Aware()
    ensures r.Success? ==> (r.value <==> a.Instant() < b.Instant() || (a.Instant() == b.Instant() && a.micro < b.micro))
  {
    if a.Aware() != b.Aware() then Failure(NaiveVersusAware)
    else Success(a.Instant() < b.Instant() || (a.Instant() == b.Instant() && a.micro < b.micro))
  }

  /** Two comparable datetimes are never each before the other. */
  lemma BeforeAsymmetric(a: DateTime, b: DateTime)
    requires Before(a, b) == Success(true)
    ensures Before(b, a) == Success(false)
  {
  }
}
