/** The legacy `BaseFactManager` of hamster_lib (hamster_lib/managers/fact.py):
    the `save` dispatch, the `get_all` range check and the conflict resolution
    of its `insert_forcefully`, which nark's version later reworked. */
module LegacyFactManager {
  import opened Wrappers
  import opened Clock
  import opened FactItem
  import opened FactManager
  import ForcedInsert
  import TimeHelpers

  // ---- save ----

  /** Where `save` sends a fact: `_update`, `_start_tmp_fact` or `_add`. */
  datatype SaveRoute = Update | StartTmp | Add

  /** `save`: a fact whose duration (up to now when it has no end) is set
      (not zero) and shorter than `fact_min_delta` seconds is refused; a
      fact with a key (`pk or pk == 0`, so any key) is updated, one without an
      end becomes the temporary fact, and the rest are added. */
  function LegacySave(f: FactRec, minDelta: int, now: DateTime): (r: Result<SaveRoute, ManagerError>)
    ensures r.Failure? <==>
      RecDelta(f, now).Failure? || (RecDelta(f, now).value != 0 && RecDelta(f, now).value < minDelta * 1000000)
    ensures r.Success? ==> (r.value == Update <==> f.pk.Some?)
    ensures r.Success? && f.pk.None? ==> (r.value == StartTmp <==> f.end.LNone?)
  {
    match RecDelta(f, now)
    case Failure(e) => Failure(Item(e))
    case Success(us) =>
      if us != 0 && us < minDelta * 1000000 then Failure(TooShort(minDelta))
      else if f.pk.Some? then Success(Update)
      else if f.end.LNone? then Success(StartTmp)
      else Success(Add)
  }

  /** Where the two versions part: a fact that ends where it starts passes the
      legacy check whatever the minimum, while nark refuses it under any
      minimum but 0; and with a minimum of 0 the legacy check still refuses a
      fact that ends before it starts, which nark lets through. */
  lemma LegacySaveVersusNark(f: FactRec, minDelta: int, now: DateTime)
    requires f.start.LDateTime? && f.end.LDateTime? && !f.start.dt.Aware() && !f.end.dt.Aware()
    ensures Micros(f.end.dt) == Micros(f.start.dt) ==>
      LegacySave(f, minDelta, now).Success? && (EnforceFactMinDelta(f, minDelta, now).Success? <==> minDelta <= 0)
    ensures Micros(f.end.dt) < Micros(f.start.dt) ==>
      LegacySave(f, 0, now).Failure? && EnforceFactMinDelta(f, 0, now).Success?
  {
  }

  // ---- get_all ----

  /** The start bound: a date means that day at the configured `day_start`
      (`combine` refuses a missing one). */
  function LegacySince(since: Bound, today: int, dayStart: Option<TimeOfDay>): (r: Result<Option<DateTime>, ManagerError>)
    ensures r.Failure? <==> since.OtherBound? || (since.OnDate? && dayStart.None?)
    ensures since.OnDate? && dayStart.Some? ==>
      r.Success? && r.value.Some? &&
      var dt := r.value.value; !dt.Aware() && dt.Day() == since.day && dt.TimeOfDay() == dayStart.value && dt.micro == 0
    ensures !since.OnDate? || dayStart == Some(0) ==> r == VerifySince(since, today)
  {
    match since
    case NoBound => Success(None)
    case AtDateTime(dt) => Success(Some(dt))
    case OnDate(d) => if dayStart.Some? then Success(Some(Combine(d, dayStart.value, 0, None))) else Failure(TypeMismatch("combine"))
    case AtTime(t, m, off) => Success(Some(Combine(today, t, m, off)))
    case OtherBound(_) => Failure(TypeMismatch("since"))
  }

  /** The end bound: a date means the end of the work day starting on it.
      The helper the legacy code calls for this, `end_day_to_datetime` of
      hamster_lib's own time module, is not part of this model; nark's
      `day_end_datetime`, which computes the same end, stands in for it, so
      the bound is nark's. */
  function LegacyUntil(until: Bound, today: int, dayStart: Option<TimeOfDay>): (r: Result<Option<DateTime>, ManagerError>)
    ensures r.Failure? <==> until.OtherBound?
    ensures until.AtDateTime? ==> r == Success(Some(until.dt))
    ensures until.OnDate? ==>
      r.Success? && r.value.Some? &&
      var dt, dayFrom := r.value.value, until.day * SecondsPerDay + (if dayStart.Some? then dayStart.value as int else 0);
      !dt.Aware() && dt.micro == 0 && dt.seconds == dayFrom + SecondsPerDay - 1
  {
    VerifyUntil(until, today, dayStart)
  }

  /** `get_all`'s checks: both bounds normalised, and with both present the
      end must be later than the start. */
  function LegacyGetAllBounds(since: Bound, until: Bound, today: int, dayStart: Option<TimeOfDay>)
    : (r: Result<(Option<DateTime>, Option<DateTime>), ManagerError>)
    ensures r.Success? && r.value.0.Some? && r.value.1.Some? ==> Before(r.value.0.value, r.value.1.value) == Success(true)
    ensures since.AtDateTime? && until.AtDateTime? && since.dt.Aware() == until.dt.Aware() ==>
      (r.Failure? <==> Before(since.dt, until.dt) == Success(false)) && (r.Failure? ==> r.error == BadRange)
  {
    CheckRange(LegacySince(since, today, dayStart), LegacyUntil(until, today, dayStart))
  }

  /** The legacy checks are nark's, except that nark starts a date bound at
      midnight where the legacy code starts it at `day_start`. */
  lemma LegacyBoundsAgree(since: Bound, until: Bound, today: int, dayStart: Option<TimeOfDay>)
    requires !since.OnDate? || dayStart == Some(0)
    ensures LegacyGetAllBounds(since, until, today, dayStart) == GetAllBounds(since, until, today, dayStart)
  {
  }

  // ---- insert_forcefully: finding the edges ----

  /** `set_start_per_antecedent`: the fact starts where the latest fact
      starting before its end stops, which must be before the fact's end; a
      still running antecedent has no end to compare, a TypeError. */
  function LegacyStartPerAntecedent(rows: seq<FactRec>, f: FactRec): (r: Result<Loose, ManagerError>)
    requires RowsOk(rows) && ForcedInsert.Moments(f) && f.start.LNone?
    ensures r.Success? ==> r.value.LDateTime? && f.end.LDateTime? && At(r.value) < At(f.end)
  {
    match Antecedent(rows, f)
    case Failure(e) => Failure(e)
    case Success(found) =>
      if found.None? then Failure(NoReference)
      else
        var a := found.value;
        assert RowOk(a);
        if a.end.LNone? then Failure(TypeMismatch("<"))
        else if At(a.end) < At(f.end) then Success(a.end)
        else Failure(AssertionFailed("antecedent ends before fact"))
  }

  /** `set_end_per_subsequent`: the fact ends where the earliest fact ending
      after it starts, which must be after the fact's start; with no such
      fact there is no end to take, a ValueError. */
  function LegacyEndPerSubsequent(rows: seq<FactRec>, f: FactRec): (r: Result<Loose, ManagerError>)
    requires RowsOk(rows) && ForcedInsert.Moments(f) && f.end.LNone?
    ensures r.Success? ==> r.value.LDateTime? && f.start.LDateTime? && At(f.start) < At(r.value)
  {
    match Subsequent(rows, f)
    case Failure(e) => Failure(e)
    case Success(found) =>
      if found.None? then Failure(NoReference)
      else
        var x := found.value;
        assert RowOk(x);
        if x.start.LNone? then Failure(TypeMismatch(">"))
        else if At(x.start) > At(f.start) then Success(x.start)
        else Failure(AssertionFailed("subsequent starts after fact"))
  }

  /** The edges in the two versions: with no later fact the legacy code
      refuses a fact without an end, where nark ends it now; otherwise they
      agree. Before a fact without a start, an antecedent that has ended
      gives both the same start; a running one is a TypeError in the legacy
      code and the fact to squash into in nark. */
  lemma LegacyEdgesVersusNark(rows: seq<FactRec>, f: FactRec, now: DateTime)
    requires RowsOk(rows) && ForcedInsert.Moments(f) && !now.Aware()
    ensures f.end.LNone? && Subsequent(rows, f) == Success(None) ==>
      LegacyEndPerSubsequent(rows, f) == Failure(NoReference)
      && ForcedInsert.EndPerSubsequent(rows, f, now) == Success(LDateTime(now.(micro := 0)))
    ensures f.end.LNone? && !(Subsequent(rows, f) == Success(None)) ==>
      LegacyEndPerSubsequent(rows, f) == ForcedInsert.EndPerSubsequent(rows, f, now)
    ensures f.start.LNone? && Antecedent(rows, f).Success? && Antecedent(rows, f).value.Some? ==>
      var a := Antecedent(rows, f).value.value;
      && (a.end.LDateTime? ==>
            (LegacyStartPerAntecedent(rows, f).Success? <==> ForcedInsert.StartPerAntecedent(rows, f).Success?)
            && (LegacyStartPerAntecedent(rows, f).Success? ==>
                  ForcedInsert.StartPerAntecedent(rows, f).value == (LegacyStartPerAntecedent(rows, f).value, None)))
      && (a.end.LNone? ==>
            LegacyStartPerAntecedent(rows, f) == Failure(TypeMismatch("<"))
            && (ForcedInsert.StartPerAntecedent(rows, f).Success? ==> ForcedInsert.StartPerAntecedent(rows, f).value.1 == Some(a)))
  {
  }

  // ---- insert_forcefully: resolution ----

  /** `resolve_fact_starts_before`, with no test for a conflict lying wholly
      after the fact: covered up to its end, the conflict is deleted;
      otherwise it must start before the fact ends, and then starts there.
      An ongoing conflict has no end to compare, a TypeError. */
  function LegacyStartsBefore(f: FactRec, c: FactRec): Result<FactRec, ManagerError>
    requires ForcedInsert.Moments(f) && ForcedInsert.Moments(c) && c.start.LDateTime?
  {
    if !f.end.LDateTime? || !c.end.LDateTime? then Failure(TypeMismatch(">="))
    else if At(f.end) >= At(c.end) then Success(ForcedInsert.Reason(c.(deleted := true), "deleted"))
    else if At(c.start) < At(f.end) then Success(ForcedInsert.Reason(c.(start := f.end), "start"))
    else Failure(AssertionFailed("conflict starts before fact ends"))
  }

  /** `resolve_fact_ends_after`: the fact must start before the conflict
      ends; the conflict then ends where the fact starts. */
  function LegacyEndsAfter(f: FactRec, c: FactRec): Result<FactRec, ManagerError>
    requires f.start.LDateTime? && c.end.LDateTime?
  {
    if At(f.start) < At(c.end) then Success(ForcedInsert.Reason(c.(end := f.start), "end"))
    else Failure(AssertionFailed("fact starts before conflict ends"))
  }

  /** `resolve_fact_is_inside`: two deep copies of the conflict, cut at the
      fact's start and started at its end; neither changes the key. */
  function LegacySplit(f: FactRec, c: FactRec): (r: seq<FactRec>)
    ensures |r| == 2
    ensures r[0].start == c.start && r[0].end == f.start && r[1].start == f.end && r[1].end == c.end
    ensures forall o | o in r :: o.(start := c.start, end := c.end, dirtyReasons := c.dirtyReasons) == c
  {
    [ForcedInsert.Reason(c.(end := f.start), "end"), ForcedInsert.Reason(c.(start := f.end), "start")]
  }

  function Single(x: Result<FactRec, ManagerError>): Result<seq<FactRec>, ManagerError> {
    if x.Failure? then Failure(x.error) else Success([x.value])
  }

  /** `resolve_fact_conflict`: starts-before when the fact starts no later
      than the conflict, ends-after when it ends no earlier, the split
      otherwise; there is no squash, and an ongoing conflict cannot be
      compared. */
  function LegacyResolve(f: FactRec, c: FactRec): (r: Result<seq<FactRec>, ManagerError>)
    requires ForcedInsert.Moments(f) && ForcedInsert.Moments(c)
    ensures ForcedInsert.Le(f.start, c.start).Failure? ==> r == Failure(TypeMismatch("<="))
    ensures ForcedInsert.Le(f.start, c.start).Success? && (!f.end.LDateTime? || !c.end.LDateTime?) ==>
      r == Failure(TypeMismatch(">="))
  {
    match ForcedInsert.Le(f.start, c.start)
    case Failure(e) => Failure(e)
    case Success(before) =>
      if before then Single(LegacyStartsBefore(f, c))
      else if !f.end.LDateTime? || !c.end.LDateTime? then Failure(TypeMismatch(">="))
      else if At(f.end) >= At(c.end) then Single(LegacyEndsAfter(f, c))
      else Success(LegacySplit(f, c))
  }

  /** The conflict object after resolution: edited in place, except by a
      split, which only makes copies. */
  function LegacyAfter(f: FactRec, c: FactRec): FactRec
    requires ForcedInsert.Moments(f) && ForcedInsert.Moments(c) && LegacyResolve(f, c).Success?
  {
    var v := LegacyResolve(f, c).value;
    if |v| == 1 then v[0] else c
  }

  /** The legacy resolution splits the conflict in two exactly when the
      fact lies strictly inside it. */
  lemma LegacyResolveSplitsInside(f: FactRec, c: FactRec)
    requires ForcedInsert.Moments(f) && ForcedInsert.Moments(c)
    ensures (LegacyResolve(f, c).Success? && |LegacyResolve(f, c).value| == 2) <==>
      && f.start.LDateTime? && c.start.LDateTime? && f.end.LDateTime? && c.end.LDateTime?
      && At(c.start) < At(f.start) && At(f.end) < At(c.end)
  {
  }

  /** Every fact the legacy resolution yields is the conflict, with the same
      key and activity, its times or deletion flag changed. */
  lemma LegacyResolveKeepsConflict(f: FactRec, c: FactRec)
    requires ForcedInsert.Moments(f) && ForcedInsert.Moments(c) && LegacyResolve(f, c).Success?
    ensures forall o | o in LegacyResolve(f, c).value ::
      o.(start := c.start, end := c.end, deleted := c.deleted, dirtyReasons := c.dirtyReasons) == c
  {
  }

  /** Every fact the legacy resolution produces is out of the fact's way. */
  lemma LegacyResolveClears(f: FactRec, c: FactRec)
    requires ForcedInsert.Moments(f) && ForcedInsert.Moments(c) && LegacyResolve(f, c).Success?
    ensures forall o | o in LegacyResolve(f, c).value :: ForcedInsert.Clear(o, f)
    ensures |LegacyResolve(f, c).value| == 1 || LegacyResolve(f, c).value == LegacySplit(f, c)
  {
  }

  /** Both halves of a legacy split keep the conflict's key (nark gives the
      later half none and records the key it was split from). */
  lemma LegacySplitKeepsKey(f: FactRec, c: FactRec)
    ensures forall o | o in LegacySplit(f, c) :: o.pk == c.pk && o.splitFrom == c.splitFrom
    ensures c.pk.Some? ==> ForcedInsert.SplitAfter(f, c).pk != LegacySplit(f, c)[1].pk
  {
  }

  /** On a conflict with an end that overlaps the fact, the legacy resolution
      sets the same times and deletions as nark's (momentaneous facts not
      allowed). */
  lemma LegacyTrimsLikeNark(f: FactRec, c: FactRec)
    requires ForcedInsert.Moments(f) && ForcedInsert.Moments(c) && c.end.LDateTime?
    requires ForcedInsert.Overlaps(c, f)
    ensures LegacyResolve(f, c).Success? && ForcedInsert.Resolve(f, c, false).Success?
    ensures
      var l, n := LegacyResolve(f, c).value, ForcedInsert.Resolve(f, c, false).value;
      |l| == |n| && forall k | 0 <= k < |l| :: l[k].start == n[k].start && l[k].end == n[k].end && l[k].deleted == n[k].deleted
  {
  }

  /** The split is lost: for a fact inside a conflict, the conflict object is
      left as it was, still overlapping the fact, and only the discarded
      copies were cut. */
  lemma LegacySplitDropped(f: FactRec, c: FactRec)
    requires ForcedInsert.Moments(f) && ForcedInsert.Moments(c)
    requires f.start.LDateTime? && f.end.LDateTime? && c.start.LDateTime? && c.end.LDateTime?
    requires At(c.start) < At(f.start) < At(f.end) < At(c.end)
    ensures LegacyResolve(f, c) == Success(LegacySplit(f, c))
    ensures LegacyAfter(f, c) == c && ForcedInsert.Overlaps(LegacyAfter(f, c), f)
  {
  }

  /** Resolution succeeded on the conflict `before` and left its object as `after`. */
  predicate ResolvedTo(f: FactRec, before: FactRec, after: FactRec) {
    ForcedInsert.Moments(f) && ForcedInsert.Moments(before) && LegacyResolve(f, before).Success? && after == LegacyAfter(f, before)
  }

  /** `resolve_fact_conflict` on the conflict object. */
  method LegacyResolveConflict(f: FactRec, c: Fact) returns (r: Result<seq<FactRec>, ManagerError>)
    requires ForcedInsert.Moments(f) && RecValid(f) && RowOk(c.Rec())
    modifies c
    ensures r == LegacyResolve(f, old(c.Rec()))
    ensures r.Success? ==> c.Rec() == LegacyAfter(f, old(c.Rec())) && ResolvedTo(f, old(c.Rec()), c.Rec())
    ensures r.Failure? ==> c.Rec() == old(c.Rec())
  {
    var before := ForcedInsert.Le(f.start, c.start);
    if before.Failure? {
      return Failure(before.error);
    }
    if before.value {
      if !f.end.LDateTime? || !c.end.LDateTime? {
        return Failure(TypeMismatch(">="));
      }
      if At(f.end) >= At(c.end) {
        c.deleted := true;
        c.dirtyReasons := c.dirtyReasons + {"deleted"};
      } else if At(c.start) < At(f.end) {
        var moved := c.SetStart(f.end);
        c.dirtyReasons := c.dirtyReasons + {"start"};
      } else {
        return Failure(AssertionFailed("conflict starts before fact ends"));
      }
      return Success([c.Rec()]);
    }
    if !f.end.LDateTime? || !c.end.LDateTime? {
      return Failure(TypeMismatch(">="));
    }
    if At(f.end) >= At(c.end) {
      if !(At(f.start) < At(c.end)) {
        return Failure(AssertionFailed("fact starts before conflict ends"));
      }
      var cut := c.SetEnd(f.start);
      c.dirtyReasons := c.dirtyReasons + {"end"};
      return Success([c.Rec()]);
    }
    var left := new Fact.Clone(c.Rec());
    var leftCut := left.SetEnd(f.start);
    left.dirtyReasons := left.dirtyReasons + {"end"};
    var right := new Fact.Clone(c.Rec());
    var rightMoved := right.SetStart(f.end);
    right.dirtyReasons := right.dirtyReasons + {"start"};
    r := Success([left.Rec(), right.Rec()]);
  }

  /** `resolve_fact_conflict` on the `i`th conflict object; the other
      conflict objects are left alone. */
  method LegacyResolveAt(f: FactRec, conflicts: seq<Fact>, i: nat) returns (r: Result<seq<FactRec>, ManagerError>)
    requires ForcedInsert.Moments(f) && RecValid(f) && i < |conflicts|
    requires forall a, b | 0 <= a < b < |conflicts| :: conflicts[a] != conflicts[b]
    requires RowOk(conflicts[i].Rec())
    modifies conflicts[i]
    ensures r == LegacyResolve(f, old(conflicts[i].Rec()))
    ensures r.Success? ==> ResolvedTo(f, old(conflicts[i].Rec()), conflicts[i].Rec())
    ensures forall k | 0 <= k < |conflicts| && k != i :: conflicts[k].Rec() == old(conflicts[k].Rec())
  {
    r := LegacyResolveConflict(f, conflicts[i]);
    forall k | 0 <= k < |conflicts| && k != i
      ensures conflicts[k].Rec() == old(conflicts[k].Rec())
    {
      assert conflicts[k] != conflicts[i];
    }
  }

  /** The fields of each conflict object, in order. */
  function Recs(conflicts: seq<Fact>): (rs: seq<FactRec>)
    reads set c | c in conflicts
    ensures |rs| == |conflicts| && forall k | 0 <= k < |conflicts| :: rs[k] == conflicts[k].Rec()
  {
    seq(|conflicts|, k requires 0 <= k < |conflicts| reads set c | c in conflicts => conflicts[k].Rec())
  }

  /** The first `i` conflict objects are resolved against `f`, the rest are
      still as `before` has them. */
  ghost predicate ResolvedUpTo(f: FactRec, before: seq<FactRec>, conflicts: seq<Fact>, i: nat)
    reads set c | c in conflicts
  {
    && |before| == |conflicts| && i <= |conflicts|
    && (forall k | 0 <= k < i :: ResolvedTo(f, before[k], conflicts[k].Rec()))
    && (forall k | i <= k < |conflicts| :: conflicts[k].Rec() == before[k])
  }

  /** One step of `resolve_overlapping`: the `i`th conflict object is
      resolved and the others are left alone. */
  method ResolveNext(f: FactRec, conflicts: seq<Fact>, i: nat, ghost before: seq<FactRec>)
    returns (r: Result<seq<FactRec>, ManagerError>)
    requires ForcedInsert.Moments(f) && RecValid(f) && i < |conflicts| == |before|
    requires forall a, b | 0 <= a < b < |conflicts| :: conflicts[a] != conflicts[b]
    requires RowOk(before[i])
    requires ResolvedUpTo(f, before, conflicts, i)
    modifies conflicts
    ensures r == LegacyResolve(f, before[i])
    ensures r.Success? ==> ResolvedUpTo(f, before, conflicts, i + 1)
  {
    r := LegacyResolveAt(f, conflicts, i);
  }

  /** `resolve_overlapping` over the conflicts list, given as its conflict
      objects and, beside each, the deep copy it is paired with; the
      conflicts `strictly_during` adds are bare, not pairs (`None`), and
      unpacking one is a TypeError. A repeated key is resolved again (its
      `next` does nothing); each conflict object ends up as `LegacyAfter`
      says. */
  method LegacyResolveOverlapping(f: FactRec, conflicts: seq<Fact>, originals: seq<Option<FactRec>>)
    returns (r: Result<seq<FactRec>, ManagerError>)
    requires ForcedInsert.Moments(f) && RecValid(f) && |originals| == |conflicts|
    requires forall i, j | 0 <= i < j < |conflicts| :: conflicts[i] != conflicts[j]
    requires forall c | c in conflicts :: RowOk(c.Rec())
    modifies conflicts
    ensures r.Success? ==> forall o | o in originals :: o.Some?
    ensures r.Success? ==> forall i | 0 <= i < |conflicts| :: ResolvedTo(f, old(conflicts[i].Rec()), conflicts[i].Rec())
  {
    ghost var before := Recs(conflicts);
    var resolved: seq<FactRec> := [];
    var seen: set<int> := {};
    for i := 0 to |conflicts|
      invariant forall k | 0 <= k < i :: originals[k].Some?
      invariant ResolvedUpTo(f, before, conflicts, i)
    {
      if originals[i].None? {
        return Failure(TypeMismatch("cannot unpack non-iterable Fact object"));
      }
      seen := seen + {conflicts[i].pk.value};
      var edited := ResolveNext(f, conflicts, i, before);
      if edited.Failure? {
        return Failure(edited.error);
      }
      resolved := resolved + edited.value;
    }
    r := Success(resolved);
  }

  /** Each conflict object's fields beside the copy it came with. */
  method Paired(conflicts: seq<Fact>, originals: seq<Option<FactRec>>) returns (pairs: seq<(FactRec, FactRec)>)
    requires |originals| == |conflicts| && forall o | o in originals :: o.Some?
    ensures |pairs| == |conflicts|
    ensures forall k | 0 <= k < |conflicts| :: pairs[k] == (conflicts[k].Rec(), originals[k].value)
  {
    pairs := [];
    for i := 0 to |conflicts|
      invariant |pairs| == i
      invariant forall k | 0 <= k < i :: pairs[k] == (conflicts[k].Rec(), originals[k].value)
    {
      assert originals[i] in originals;
      pairs := pairs + [(conflicts[i].Rec(), originals[i].value)];
    }
  }

  /** The end of `_insert_forcefully`: what it returns is the conflicts list
      itself, each conflict object (as resolution left it) beside its copy. */
  method LegacyInsertTail(f: FactRec, conflicts: seq<Fact>, originals: seq<Option<FactRec>>)
    returns (r: Result<seq<(FactRec, FactRec)>, ManagerError>)
    requires ForcedInsert.Moments(f) && RecValid(f) && |originals| == |conflicts|
    requires forall i, j | 0 <= i < j < |conflicts| :: conflicts[i] != conflicts[j]
    requires forall c | c in conflicts :: RowOk(c.Rec())
    modifies conflicts
    ensures r.Success? ==> |r.value| == |conflicts| && forall i | 0 <= i < |conflicts| ::
      originals[i] == Some(r.value[i].1) && ResolvedTo(f, old(conflicts[i].Rec()), r.value[i].0)
  {
    var resolved := LegacyResolveOverlapping(f, conflicts, originals);
    if resolved.Failure? {
      return Failure(resolved.error);
    }
    var pairs := Paired(conflicts, originals);
    r := Success(pairs);
  }
}
