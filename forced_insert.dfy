/** `insert_forcefully` (nark/managers/fact.py): making room for a fact by
    editing the stored facts in its way. Each conflict is a fact object of
    its own, built from a row; it is trimmed, deleted, split in two, or it
    absorbs the new fact (squash). The spec functions say what becomes of a
    conflict's fields; the methods do it in place, as the source does. */
module ForcedInsert {
  import opened Wrappers
  import opened Clock
  import opened FactItem
  import opened FactManager

  /** Python's `a <= b` on two fact times: datetimes compare, None raises. */
  function Le(a: Loose, b: Loose): (r: Result<bool, ManagerError>)
    ensures r.Success? <==> a.LDateTime? && b.LDateTime?
    ensures r.Failure? ==> r.error == TypeMismatch("<=")
  {
    if a.LDateTime? && b.LDateTime? then Success(At(a) <= At(b)) else Failure(TypeMismatch("<="))
  }

  /** The time a stored fact claims overlaps the span of `f`: it starts before
      `f` ends and ends (or is still running) after `f` starts. A fact of no
      length at either edge of `f` does not overlap it. */
  predicate Overlaps(c: FactRec, f: FactRec) {
    && f.start.LDateTime? && f.end.LDateTime? && c.start.LDateTime? && At(c.start) < At(f.end)
    && (c.end.LNone? || (c.end.LDateTime? && At(f.start) < At(c.end)))
  }

  /** A conflict that no longer stands in the new fact's way. */
  predicate Clear(c: FactRec, f: FactRec) {
    c.deleted || !Overlaps(c, f)
  }

  predicate Moments(f: FactRec) {
    Moment(f.start) && Moment(f.end)
  }

  function Reason(c: FactRec, reason: string): FactRec {
    c.(dirtyReasons := c.dirtyReasons + {reason})
  }

  /** `resolve_fact_starts_before`, for a fact starting no later than the
      conflict: None when the conflict is left alone, else the edited conflict. */
  function StartsBefore(f: FactRec, c: FactRec, allowMomentaneous: bool): Result<Option<FactRec>, ManagerError>
    requires Moments(f) && Moments(c)
  {
    match Le(f.end, c.start)
    case Failure(e) => Failure(e)
    case Success(disjoint) =>
      if disjoint then Success(None)
      else if c.end.LDateTime? && At(f.end) >= At(c.end) then
        if allowMomentaneous && f.start == c.start && c.start == c.end then Success(None)
        else Success(Some(Reason(c.(deleted := true), "deleted-starts_before")))
      else Success(Some(Reason(c.(start := f.end), "start")))
  }

  /** `resolve_fact_ends_after`, for a fact starting after the conflict and
      reaching at least to its end. */
  function EndsAfter(f: FactRec, c: FactRec, allowMomentaneous: bool): Result<Option<FactRec>, ManagerError>
    requires Moments(f) && Moments(c)
  {
    if c.end.LDateTime? && !f.start.LDateTime? then Failure(TypeMismatch(">="))
    else if c.end.LDateTime? && At(f.start) >= At(c.end) then Success(None)
    else
      match Le(f.start, c.start)
      case Failure(e) => Failure(e)
      case Success(covers) =>
        if covers then
          if allowMomentaneous && f.end == c.end && c.start == c.end then Success(None)
          else Success(Some(Reason(c.(deleted := true), "deleted-ends_after")))
        else
          var stopped := if c.end.LNone? then Reason(c, "stopped") else c;
          Success(Some(Reason(stopped.(end := f.start), "end")))
  }

  /** `resolve_fact_split_prior`: the part of the conflict before the fact,
      keeping the conflict's key. */
  function SplitPrior(f: FactRec, c: FactRec): FactRec {
    Reason(c.(splitFrom := c.pk, end := f.start), "lsplit")
  }

  /** `resolve_fact_split_after`: the part after the fact, a new fact. */
  function SplitAfter(f: FactRec, c: FactRec): FactRec {
    Reason(c.(splitFrom := c.pk, pk := None, start := f.end), "rsplit")
  }

  function Listed(x: Result<Option<FactRec>, ManagerError>): Result<seq<FactRec>, ManagerError> {
    match x
    case Failure(e) => Failure(e)
    case Success(o) => if o.Some? then Success([o.value]) else Success([])
  }

  /** The conflict after a helper ran: the edited one, or the old one. */
  function Edited(x: Result<Option<FactRec>, ManagerError>, c: FactRec): FactRec {
    if x.Success? && x.value.Some? then x.value.value else c
  }

  /** `resolve_fact_conflict` when it does not squash: starts-before when the
      fact starts no later than the conflict, ends-after when the conflict is
      ongoing or ends no later than the fact, the split when the fact lies
      inside it. */
  function Resolve(f: FactRec, c: FactRec, allowMomentaneous: bool): Result<seq<FactRec>, ManagerError>
    requires Moments(f) && Moments(c) && !(f.start.LNone? && c.end.LNone?)
  {
    match Le(f.start, c.start)
    case Failure(e) => Failure(e)
    case Success(before) =>
      if before then Listed(StartsBefore(f, c, allowMomentaneous))
      else if c.end.LNone? then Listed(EndsAfter(f, c, allowMomentaneous))
      else if !f.end.LDateTime? then Failure(TypeMismatch(">="))
      else if At(f.end) >= At(c.end) then Listed(EndsAfter(f, c, allowMomentaneous))
      else Success([SplitPrior(f, c), SplitAfter(f, c)])
  }

  /** What resolution promises: every edited conflict is deleted or out of the
      fact's way, and a conflict left alone was never in it. */
  lemma ResolveClears(f: FactRec, c: FactRec, allowMomentaneous: bool)
    requires Moments(f) && Moments(c) && !(f.start.LNone? && c.end.LNone?)
    requires Resolve(f, c, allowMomentaneous).Success?
    ensures forall o | o in Resolve(f, c, allowMomentaneous).value :: Clear(o, f)
    ensures Resolve(f, c, allowMomentaneous).value == [] ==> !Overlaps(c, f)
  {
    var r := Resolve(f, c, allowMomentaneous);
    if At(f.start) <= At(c.start) {
      var x := StartsBefore(f, c, allowMomentaneous);
      assert x.Success?;
      if x.value.Some? {
        assert r.value == [x.value.value];
      }
    } else if c.end.LNone? || At(f.end) >= At(c.end) {
      var x := EndsAfter(f, c, allowMomentaneous);
      assert x.Success?;
      if x.value.Some? {
        assert r.value == [x.value.value];
      }
    } else {
      assert r.value == [SplitPrior(f, c), SplitAfter(f, c)];
    }
  }

  /** Every edited conflict keeps the conflict's key, except the part after a
      split, which is new and records where it was split from. At most two
      come out of one conflict, and only a split yields two. */
  lemma ResolveKeys(f: FactRec, c: FactRec, allowMomentaneous: bool)
    requires Moments(f) && Moments(c) && !(f.start.LNone? && c.end.LNone?)
    requires Resolve(f, c, allowMomentaneous).Success?
    ensures |Resolve(f, c, allowMomentaneous).value| <= 2
    ensures forall o | o in Resolve(f, c, allowMomentaneous).value :: o.pk == c.pk || (o.pk.None? && o.splitFrom == c.pk)
    ensures |Resolve(f, c, allowMomentaneous).value| == 2 ==>
      Resolve(f, c, allowMomentaneous).value == [SplitPrior(f, c), SplitAfter(f, c)]
  {
  }

  // ---- cull_duplicates ----

  function TupleSet(xs: seq<FactRec>): set<FactTuple> {
    set x | x in xs :: RecTuple(x, true)
  }

  /** `cull_duplicates`: the first of each group of equal facts, in order. */
  function Culled(xs: seq<FactRec>): seq<FactRec> {
    if xs == [] then []
    else
      var kept := Culled(xs[..|xs| - 1]);
      if RecTuple(xs[|xs| - 1], true) in TupleSet(kept) then kept else kept + [xs[|xs| - 1]]
  }

  method CullDuplicates(resolved: seq<FactRec>) returns (culled: seq<FactRec>)
    ensures culled == Culled(resolved)
  {
    var seen: set<FactTuple> := {};
    culled := [];
    for i := 0 to |resolved|
      invariant culled == Culled(resolved[..i]) && seen == TupleSet(culled)
    {
      CulledStep(resolved, i);
      var t := RecTuple(resolved[i], true);
      if t !in seen {
        TupleSetAppend(culled, resolved[i]);
        seen := seen + {t};
        culled := culled + [resolved[i]];
      }
    }
    assert resolved[..|resolved|] == resolved;
  }

  lemma TupleSetAppend(xs: seq<FactRec>, x: FactRec)
    ensures TupleSet(xs + [x]) == TupleSet(xs) + {RecTuple(x, true)}
  {
  }

  lemma CulledStep(xs: seq<FactRec>, i: nat)
    requires i < |xs|
    ensures Culled(xs[..i + 1]) ==
      if RecTuple(xs[i], true) in TupleSet(Culled(xs[..i])) then Culled(xs[..i]) else Culled(xs[..i]) + [xs[i]]
  {
    assert xs[..i + 1][..i] == xs[..i];
  }

  /** Culling keeps one fact of every kind present and adds nothing. */
  lemma {:induction false} CulledKinds(xs: seq<FactRec>)
    ensures TupleSet(Culled(xs)) == TupleSet(xs)
    ensures forall x | x in Culled(xs) :: x in xs
  {
    if xs != [] {
      var init, last := xs[..|xs| - 1], xs[|xs| - 1];
      CulledKinds(init);
      assert xs == init + [last];
      TupleSetAppend(init, last);
      if RecTuple(last, true) !in TupleSet(Culled(init)) {
        TupleSetAppend(Culled(init), last);
      }
    }
  }

  /** No two facts culling keeps are equal. */
  lemma {:induction false} CulledDistinct(xs: seq<FactRec>)
    ensures forall i, j :: 0 <= i < j < |Culled(xs)| ==> RecTuple(Culled(xs)[i], true) != RecTuple(Culled(xs)[j], true)
  {
    if xs != [] {
      var init, last := xs[..|xs| - 1], xs[|xs| - 1];
      CulledDistinct(init);
      var kept := Culled(init);
      if RecTuple(last, true) !in TupleSet(kept) {
        var c := kept + [last];
        forall i, j | 0 <= i < j < |c|
          ensures RecTuple(c[i], true) != RecTuple(c[j], true)
        {
          if j == |kept| {
            assert c[i] in kept;
          } else {
            assert c[i] == kept[i] && c[j] == kept[j];
          }
        }
      }
    }
  }

  /** Two facts that differ (as `__eq__` sees them) are both kept, in order. */
  lemma CulledPair(a: FactRec, b: FactRec)
    ensures Culled([]) == []
    ensures Culled([a]) == [a]
    ensures RecTuple(a, true) != RecTuple(b, true) ==> Culled([a, b]) == [a, b]
  {
    assert [a][..0] == [];
    assert [a, b][..1] == [a];
  }

  /** The splits of one conflict are told apart by their keys. */
  lemma SplitsDistinct(f: FactRec, c: FactRec)
    requires c.pk.Some?
    ensures Culled([SplitPrior(f, c), SplitAfter(f, c)]) == [SplitPrior(f, c), SplitAfter(f, c)]
  {
    assert RecTuple(SplitPrior(f, c), true).pk != RecTuple(SplitAfter(f, c), true).pk;
    CulledPair(SplitPrior(f, c), SplitAfter(f, c));
  }

  /** Resolution yields no two equal facts, so culling leaves it as it is. */
  lemma ResolveCulled(f: FactRec, c: FactRec, allowMomentaneous: bool)
    requires Moments(f) && Moments(c) && !(f.start.LNone? && c.end.LNone?) && c.pk.Some?
    requires Resolve(f, c, allowMomentaneous).Success?
    ensures Culled(Resolve(f, c, allowMomentaneous).value) == Resolve(f, c, allowMomentaneous).value
  {
    var r := Resolve(f, c, allowMomentaneous).value;
    ResolveKeys(f, c, allowMomentaneous);
    if |r| == 2 {
      SplitsDistinct(f, c);
    } else if |r| == 1 {
      CulledPair(r[0], r[0]);
      assert r == [r[0]];
    } else {
      CulledPair(f, f);
    }
  }

  // ---- the resolvers, on the conflict objects ----

  /** `resolve_fact_starts_before`, editing the conflict in place. */
  method ResolveStartsBefore(fact: Fact, c: Fact, allowMomentaneous: bool) returns (r: Result<seq<FactRec>, ManagerError>)
    requires fact != c && fact.Valid() && Moments(fact.Rec()) && RowOk(c.Rec())
    modifies c
    ensures r == Listed(StartsBefore(fact.Rec(), old(c.Rec()), allowMomentaneous))
    ensures c.Rec() == Edited(StartsBefore(fact.Rec(), old(c.Rec()), allowMomentaneous), old(c.Rec()))
  {
    var disjoint := Le(fact.end, c.start);
    if disjoint.Failure? {
      return Failure(disjoint.error);
    }
    if disjoint.value {
      return Success([]);
    }
    if c.end.LDateTime? && At(fact.end) >= At(c.end) {
      if allowMomentaneous && fact.start == c.start && c.start == c.end {
        return Success([]);
      }
      c.deleted := true;
      c.dirtyReasons := c.dirtyReasons + {"deleted-starts_before"};
    } else {
      var moved := c.SetStart(fact.end);
      c.dirtyReasons := c.dirtyReasons + {"start"};
    }
    r := Success([c.Rec()]);
  }

  /** `resolve_fact_ends_after`, editing the conflict in place. */
  method ResolveEndsAfter(fact: Fact, c: Fact, allowMomentaneous: bool) returns (r: Result<seq<FactRec>, ManagerError>)
    requires fact != c && fact.Valid() && Moments(fact.Rec()) && RowOk(c.Rec())
    modifies c
    ensures r == Listed(EndsAfter(fact.Rec(), old(c.Rec()), allowMomentaneous))
    ensures c.Rec() == Edited(EndsAfter(fact.Rec(), old(c.Rec()), allowMomentaneous), old(c.Rec()))
  {
    if c.end.LDateTime? && !fact.start.LDateTime? {
      return Failure(TypeMismatch(">="));
    }
    if c.end.LDateTime? && At(fact.start) >= At(c.end) {
      return Success([]);
    }
    var covers := Le(fact.start, c.start);
    if covers.Failure? {
      return Failure(covers.error);
    }
    if covers.value {
      if allowMomentaneous && fact.end == c.end && c.start == c.end {
        return Success([]);
      }
      c.deleted := true;
      c.dirtyReasons := c.dirtyReasons + {"deleted-ends_after"};
    } else {
      if c.end.LNone? {
        c.dirtyReasons := c.dirtyReasons + {"stopped"};
      }
      var moved := c.SetEnd(fact.start);
      c.dirtyReasons := c.dirtyReasons + {"end"};
    }
    r := Success([c.Rec()]);
  }

  /** `resolve_fact_is_inside`: two deep copies of the conflict, one cut at
      the fact's start and one started at its end; the conflict itself is
      left as it is. */
  method ResolveIsInside(fact: Fact, c: Fact) returns (r: seq<FactRec>)
    requires fact.Valid()
    ensures r == [SplitPrior(fact.Rec(), c.Rec()), SplitAfter(fact.Rec(), c.Rec())]
  {
    var left := new Fact.Clone(c.Rec());
    left.splitFrom := c.pk;
    var cut := left.SetEnd(fact.start);
    left.dirtyReasons := left.dirtyReasons + {"lsplit"};
    var right := new Fact.Clone(c.Rec());
    right.splitFrom := c.pk;
    right.pk := None;
    var moved := right.SetStart(fact.end);
    right.dirtyReasons := right.dirtyReasons + {"rsplit"};
    r := [left.Rec(), right.Rec()];
  }

  /** The assertions `squash` opens with, on the fact being absorbed (`f`)
      and the ongoing conflict absorbing it (`c`). */
  predicate SquashOk(f: FactRec, c: FactRec) {
    && (f.pk.None? || f.pk.value < 0)
    && !c.deleted && !f.deleted
    && (f.splitFrom.None? || f.splitFrom.value == 0)
    && c.start.Truthy() && f.end.Truthy()
  }

  /** `resolve_fact_squash_fact`: the ongoing conflict takes the start-less
      fact's end, activity, tags and description, and the fact is deleted. */
  method ResolveSquash(fact: Fact, c: Fact, sep: string) returns (r: Result<seq<FactRec>, ManagerError>)
    requires fact != c && fact.Valid() && c.Valid() && Moments(fact.Rec()) && Moments(c.Rec())
    requires fact.start.LNone? && c.end.LNone?
    modifies fact, c
    ensures r.Success? <==> SquashOk(old(fact.Rec()), old(c.Rec()))
    ensures r.Failure? ==> r.error.AssertionFailed? && fact.Rec() == old(fact.Rec())
    ensures r.Success? ==> r.value == [c.Rec()] && {"stopped", "end", "squash"} <= c.dirtyReasons
    ensures r.Success? ==> c.start == old(c.start) && c.end == old(fact.end) && c.pk == old(c.pk)
    ensures r.Success? ==> fact.deleted && fact.start == c.start && fact.end == c.end
    ensures fact.Valid() && Moments(fact.Rec()) && fact.pk == old(fact.pk) && fact.end == old(fact.end)
  {
    c.dirtyReasons := c.dirtyReasons + {"stopped", "end", "squash"};
    if !SquashOk(fact.Rec(), c.Rec()) {
      return Failure(AssertionFailed("squash"));
    }
    c.Squash(fact, sep);
    r := Success([c.Rec()]);
  }

  /** `resolve_fact_conflict`: squash when neither the fact has a start nor
      the conflict an end, otherwise the resolution `Resolve` describes; then
      `cull_duplicates`. */
  method ResolveFactConflict(fact: Fact, c: Fact, allowMomentaneous: bool, sep: string)
    returns (r: Result<seq<FactRec>, ManagerError>)
    requires fact != c && fact.Valid() && Moments(fact.Rec()) && RowOk(c.Rec())
    modifies fact, c
    ensures fact.Valid() && Moments(fact.Rec()) && fact.pk == old(fact.pk) && fact.end == old(fact.end)
    ensures r.Success? ==> forall o | o in r.value :: o.pk == old(c.pk) || (o.pk.None? && o.splitFrom == old(c.pk))
    ensures old(fact.start).LNone? && old(c.end).LNone? ==>
      && (r.Success? <==> SquashOk(old(fact.Rec()), old(c.Rec())))
      && (r.Success? ==> fact.deleted && r.value == [c.Rec()] && c.end == old(fact.end))
      && (r.Failure? ==> fact.Rec() == old(fact.Rec()))
    ensures !(old(fact.start).LNone? && old(c.end).LNone?) ==>
      fact.Rec() == old(fact.Rec()) && r == Resolve(old(fact.Rec()), old(c.Rec()), allowMomentaneous)
  {
    var resolved: seq<FactRec>;
    if fact.start.LNone? && c.end.LNone? {
      var squashed := ResolveSquash(fact, c, sep);
      if squashed.Failure? {
        return squashed;
      }
      resolved := squashed.value;
      CulledPair(resolved[0], resolved[0]);
    } else {
      ghost var f0, c0 := fact.Rec(), c.Rec();
      var before := Le(fact.start, c.start);
      if before.Failure? {
        return Failure(before.error);
      }
      var raw: Result<seq<FactRec>, ManagerError>;
      if before.value {
        raw := ResolveStartsBefore(fact, c, allowMomentaneous);
      } else if c.end.LNone? {
        raw := ResolveEndsAfter(fact, c, allowMomentaneous);
      } else if !fact.end.LDateTime? {
        return Failure(TypeMismatch(">="));
      } else if At(fact.end) >= At(c.end) {
        raw := ResolveEndsAfter(fact, c, allowMomentaneous);
      } else {
        var split := ResolveIsInside(fact, c);
        raw := Success(split);
      }
      assert raw == Resolve(f0, c0, allowMomentaneous);
      if raw.Failure? {
        return raw;
      }
      ResolveCulled(f0, c0, allowMomentaneous);
      ResolveKeys(f0, c0, allowMomentaneous);
      resolved := raw.value;
    }
    var culled := CullDuplicates(resolved);
    r := Success(culled);
  }

  // ---- resolve_overlapping ----

  /** Stored facts are told apart by their primary keys. */
  predicate KeysUnique(rows: seq<FactRec>) {
    forall x, y | x in rows && y in rows && x.pk == y.pk :: x == y
  }

  /** The keys `resolve_overlapping` has seen among `xs`: all but the fact's own. */
  function Keys(xs: seq<FactRec>, own: Option<int>): set<int> {
    set y | y in xs && y.pk.Some? && y.pk != own :: y.pk.value
  }

  /** Each edited conflict beside a snapshot of the conflict before the edit. */
  function Paired(xs: seq<FactRec>, original: FactRec): (r: seq<(FactRec, FactRec)>)
    ensures forall p :: p in r <==> p.0 in xs && p.1 == original
  {
    if xs == [] then [] else [(xs[0], original)] + Paired(xs[1..], original)
  }

  lemma KeysStep(xs: seq<FactRec>, i: nat, own: Option<int>)
    requires i < |xs|
    ensures xs[..i + 1] == xs[..i] + [xs[i]]
    ensures Keys(xs[..i + 1], own) == Keys(xs[..i], own) + (if xs[i].pk.Some? && xs[i].pk != own then {xs[i].pk.value} else {})
  {
    assert xs[..i + 1] == xs[..i] + [xs[i]];
  }

  /** A key seen before belongs to a conflict seen before, the same one. */
  lemma SeenBefore(xs: seq<FactRec>, i: nat, own: Option<int>)
    requires i < |xs| && KeysUnique(xs) && xs[i].pk.Some? && xs[i].pk != own
    requires xs[i].pk.value in Keys(xs[..i], own)
    ensures xs[i] in xs[..i]
  {
    var y :| y in xs[..i] && y.pk.Some? && y.pk != own && y.pk.value == xs[i].pk.value;
    assert y in xs;
  }

  /** How an edited conflict's key relates to its original's. */
  predicate Traced(p: (FactRec, FactRec)) {
    p.0.pk == p.1.pk || (p.0.pk.None? && p.0.splitFrom == p.1.pk)
  }

  /** `resolve_overlapping`: each conflict (by key, once, never the fact
      itself) becomes a fresh fact object that is resolved against the fact;
      the result pairs each edit with a copy of the conflict made before it.
      Unless a squash absorbed the fact, the fact is unchanged, every edit is
      out of its way, and every conflict overlapping it was edited. */
  method ResolveOverlapping(fact: Fact, conflicts: seq<FactRec>, allowMomentaneous: bool, sep: string)
    returns (r: Result<seq<(FactRec, FactRec)>, ManagerError>)
    requires fact.Valid() && Moments(fact.Rec()) && RowsOk(conflicts) && KeysUnique(conflicts)
    modifies fact
    ensures fact.Valid() && Moments(fact.Rec()) && fact.pk == old(fact.pk) && fact.end == old(fact.end)
    ensures !fact.deleted ==> fact.Rec() == old(fact.Rec())
    ensures r.Success? ==> forall p | p in r.value :: p.1 in conflicts && p.1.pk != fact.pk && Traced(p)
    ensures r.Success? && !fact.deleted ==> forall p | p in r.value :: Clear(p.0, fact.Rec())
    ensures r.Success? && !fact.deleted ==>
      forall x | x in conflicts && x.pk != fact.pk && Overlaps(x, fact.Rec()) :: exists p | p in r.value :: p.1 == x
  {
    var seen: set<int> := {};
    var resolved: seq<(FactRec, FactRec)> := [];
    ghost var f0 := fact.Rec();
    for i := 0 to |conflicts|
      invariant fact.Valid() && Moments(fact.Rec()) && fact.pk == f0.pk && fact.end == f0.end
      invariant !fact.deleted ==> fact.Rec() == f0
      invariant seen == Keys(conflicts[..i], f0.pk)
      invariant forall p | p in resolved :: p.1 in conflicts && p.1.pk != f0.pk && Traced(p)
      invariant !fact.deleted ==> forall p | p in resolved :: Clear(p.0, f0)
      invariant !fact.deleted ==>
        forall x | x in conflicts[..i] && x.pk != f0.pk && Overlaps(x, f0) :: exists p | p in resolved :: p.1 == x
    {
      var x := conflicts[i];
      assert x in conflicts && RowOk(x);
      KeysStep(conflicts, i, f0.pk);
      if x.pk != fact.pk && x.pk.value in seen {
        SeenBefore(conflicts, i, f0.pk);
      } else if x.pk != fact.pk {
        seen := seen + {x.pk.value};
        var c := new Fact.Clone(x);
        var original := c.Copy(true);
        ghost var deletedBefore := fact.deleted;
        var edited := ResolveFactConflict(fact, c, allowMomentaneous, sep);
        if edited.Failure? {
          return Failure(edited.error);
        }
        var added := Paired(edited.value, original.Rec());
        if !fact.deleted {
          ResolveClears(f0, x, allowMomentaneous);
          if Overlaps(x, f0) {
            assert (edited.value[0], x) in added;
          }
        }
        resolved := resolved + added;
      }
    }
    r := Success(resolved);
    assert conflicts[..|conflicts|] == conflicts;
  }

  // ---- finding the conflicts ----

  /** `set_start_per_antecedent`, for a fact without a start: the new start,
      and the conflict to squash into, if any. The latest fact starting
      before the fact's end must exist; when it has ended, the fact starts
      there (and it must end before the fact does); when it is still running,
      it becomes the conflict (and it must start before the fact ends). */
  function StartPerAntecedent(rows: seq<FactRec>, f: FactRec): (r: Result<(Loose, Option<FactRec>), ManagerError>)
    requires RowsOk(rows) && Moments(f) && f.start.LNone?
    ensures r.Success? ==> f.end.LDateTime? && Moment(r.value.0) && Settled(r.value.0)
    ensures r.Success? && r.value.1.None? ==>
      r.value.0.LDateTime? && At(r.value.0) < At(f.end) && exists x | x in rows :: x.end == r.value.0
    ensures r.Success? && r.value.1.Some? ==>
      r.value.0 == f.start && r.value.1.value in rows && r.value.1.value.end.LNone? &&
      r.value.1.value.start.LDateTime? && At(r.value.1.value.start) < At(f.end)
    ensures r.Failure? ==> r.error == NoReference || r.error.AssertionFailed?
  {
    match Antecedent(rows, f)
    case Failure(e) => Failure(e)
    case Success(found) =>
      if found.None? then Failure(NoReference)
      else
        var a := found.value;
        assert RowOk(a);
        if a.end.LDateTime? then
          if At(a.end) < At(f.end) then Success((a.end, None)) else Failure(AssertionFailed("antecedent ends before fact"))
        else if At(a.start) < At(f.end) then Success((f.start, Some(a)))
        else Failure(AssertionFailed("ongoing antecedent starts before fact ends"))
  }

  /** `set_end_per_subsequent`, for a fact without an end: the fact ends where
      the earliest fact ending after it starts (which must start after the
      fact does), or now, its microseconds dropped by the setter, when there
      is none. */
  function EndPerSubsequent(rows: seq<FactRec>, f: FactRec, now: DateTime): (r: Result<Loose, ManagerError>)
    requires RowsOk(rows) && Moments(f) && f.end.LNone? && !now.Aware()
    ensures r.Success? ==> f.start.LDateTime? && r.value.LDateTime? && Moment(r.value) && Settled(r.value)
    ensures r.Success? ==> r.value == LDateTime(now.(micro := 0)) || (At(f.start) < At(r.value) && exists x | x in rows :: x.start == r.value)
    ensures r.Failure? ==> r.error == NoReference || r.error == TypeMismatch(">") || r.error.AssertionFailed?
  {
    match Subsequent(rows, f)
    case Failure(e) => Failure(e)
    case Success(found) =>
      if found.None? then Success(LDateTime(now.(micro := 0)))
      else
        var x := found.value;
        assert RowOk(x);
        if x.start.LNone? then Failure(TypeMismatch(">"))
        else if At(x.start) > At(f.start) then Success(x.start)
        else Failure(AssertionFailed("subsequent starts after fact"))
  }

  /** `find_conflict_at_edge` at a time the fact has: the fact surrounding
      that time, else what the boundary query finds there. */
  function AtEdge(rows: seq<FactRec>, t: int, boundary: Result<Option<FactRec>, ManagerError>): (r: Result<seq<FactRec>, ManagerError>)
    ensures r.Success? ==> forall x | x in rows && Matches(Around(t), x) :: x in r.value
  {
    var around := Surrounding(rows, t);
    if around.Failure? then Failure(around.error)
    else if around.value != [] then around
    else Listed(boundary)
  }

  /** `find_conflicts_during`: the live facts wholly within the fact. */
  function During(rows: seq<FactRec>, f: FactRec): (r: seq<FactRec>)
    ensures f.start.LDateTime? && f.end.LDateTime? ==>
      forall x | x in rows && Matches(Within(At(f.start), At(f.end)), x) :: x in r
    ensures forall x | x in r :: x in rows
  {
    if f.start.LDateTime? && f.end.LDateTime? then Select(rows, Within(At(f.start), At(f.end))) else []
  }

  /** The three queries miss no live fact overlapping a fact whose start and
      end were both given. */
  lemma EdgesFindOverlaps(rows: seq<FactRec>, f: FactRec, atStart: seq<FactRec>, atEnd: seq<FactRec>)
    requires f.start.LDateTime? && f.end.LDateTime? && Moments(f)
    requires AtEdge(rows, At(f.start), StartingAtQuery(rows, f)) == Success(atStart)
    requires AtEdge(rows, At(f.end), EndingAtQuery(rows, f)) == Success(atEnd)
    ensures forall x | x in rows && !x.deleted && Overlaps(x, f) :: x in atStart + atEnd + During(rows, f)
  {
    forall x | x in rows && !x.deleted && Overlaps(x, f)
      ensures x in atStart + atEnd + During(rows, f)
    {
      if At(x.start) < At(f.start) {
        assert Matches(Around(At(f.start)), x);
      } else if x.end.LDateTime? && At(x.end) <= At(f.end) {
        assert Matches(Within(At(f.start), At(f.end)), x);
      } else {
        assert Matches(Around(At(f.end)), x);
      }
    }
  }

  /** Facts drawn from the store keep the store's row properties. */
  lemma DrawnFromRows(rows: seq<FactRec>, xs: seq<FactRec>)
    requires RowsOk(rows) && KeysUnique(rows) && forall x | x in xs :: x in rows
    ensures RowsOk(xs) && KeysUnique(xs)
  {
  }

  lemma ListedRows(rows: seq<FactRec>, x: Result<Option<FactRec>, ManagerError>)
    requires x.Success? && x.value.Some? ==> x.value.value in rows
    ensures Listed(x).Success? ==> forall y | y in Listed(x).value :: y in rows
  {
  }

  /** The start edge: for a fact without a start, `set_start_per_antecedent`
      fills it in (or finds the ongoing fact to squash into). */
  method ConflictAtStart(rows: seq<FactRec>, fact: Fact) returns (r: Result<seq<FactRec>, ManagerError>)
    requires RowsOk(rows) && fact.Valid() && Moments(fact.Rec())
    modifies fact`start
    ensures fact.Valid() && Moments(fact.Rec())
    ensures r.Success? ==> forall x | x in r.value :: x in rows
    ensures old(fact.start).LDateTime? ==>
      fact.start == old(fact.start) && r == AtEdge(rows, At(fact.start), StartingAtQuery(rows, fact.Rec()))
    ensures old(fact.start).LNone? ==>
      var a := StartPerAntecedent(rows, old(fact.Rec()));
      && (a.Failure? ==> r == Failure(a.error) && fact.start == old(fact.start))
      && (a.Success? ==> fact.start == a.value.0 && r == Success(if a.value.1.Some? then [a.value.1.value] else []))
  {
    if fact.start.LDateTime? {
      var boundary := StartingAtQuery(rows, fact.Rec());
      ListedRows(rows, boundary);
      return AtEdge(rows, At(fact.start), boundary);
    }
    var a := StartPerAntecedent(rows, fact.Rec());
    if a.Failure? {
      return Failure(a.error);
    }
    var started := fact.SetStart(a.value.0);
    r := Success(if a.value.1.Some? then [a.value.1.value] else []);
  }

  /** The end edge: for a fact without an end, `set_end_per_subsequent`
      fills it in, and no conflict comes from it. */
  method ConflictAtEnd(rows: seq<FactRec>, fact: Fact, now: DateTime) returns (r: Result<seq<FactRec>, ManagerError>)
    requires RowsOk(rows) && fact.Valid() && Moments(fact.Rec()) && !now.Aware()
    modifies fact`end
    ensures fact.Valid() && Moments(fact.Rec())
    ensures r.Success? ==> fact.end.LDateTime? && forall x | x in r.value :: x in rows
    ensures old(fact.end).LDateTime? ==>
      fact.end == old(fact.end) && r == AtEdge(rows, At(fact.end), EndingAtQuery(rows, fact.Rec()))
    ensures old(fact.end).LNone? ==>
      var e := EndPerSubsequent(rows, old(fact.Rec()), now);
      && (e.Failure? ==> r == Failure(e.error) && fact.end == old(fact.end))
      && (e.Success? ==> fact.end == e.value && r == Success([]))
  {
    if fact.end.LDateTime? {
      var boundary := EndingAtQuery(rows, fact.Rec());
      ListedRows(rows, boundary);
      return AtEdge(rows, At(fact.end), boundary);
    }
    var e := EndPerSubsequent(rows, fact.Rec(), now);
    if e.Failure? {
      return Failure(e.error);
    }
    var ended := fact.SetEnd(e.value);
    r := Success([]);
  }

  /** `insert_forcefully`: the edited conflicts, each beside the conflict as
      stored. The fact ends up with an end; unless a squash absorbed it, no
      edited conflict stands in its way, and when it came with both a start
      and an end, every live fact it overlaps is among the originals. */
  method InsertForcefully(rows: seq<FactRec>, fact: Fact, allowMomentaneous: bool, sep: string, now: DateTime)
    returns (r: Result<seq<(FactRec, FactRec)>, ManagerError>)
    requires RowsOk(rows) && KeysUnique(rows) && fact.Valid() && Moments(fact.Rec()) && !now.Aware()
    modifies fact
    ensures fact.Valid() && Moments(fact.Rec()) && fact.pk == old(fact.pk)
    ensures r.Success? ==> fact.end.LDateTime?
    ensures r.Success? ==> forall p | p in r.value :: p.1 in rows && p.1.pk != fact.pk && Traced(p)
    ensures r.Success? && !fact.deleted ==> forall p | p in r.value :: Clear(p.0, fact.Rec())
    ensures r.Success? && !fact.deleted && old(fact.start).LDateTime? && old(fact.end).LDateTime? ==>
      && fact.Rec() == old(fact.Rec())
      && forall x | x in rows && !x.deleted && x.pk != fact.pk && Overlaps(x, fact.Rec()) :: exists p | p in r.value :: p.1 == x
  {
    var atStart := ConflictAtStart(rows, fact);
    if atStart.Failure? {
      return Failure(atStart.error);
    }
    var atEnd := ConflictAtEnd(rows, fact, now);
    if atEnd.Failure? {
      return Failure(atEnd.error);
    }
    var f1 := fact.Rec();
    var conflicts := atStart.value + atEnd.value + During(rows, f1);
    DrawnFromRows(rows, conflicts);
    if old(fact.start).LDateTime? && old(fact.end).LDateTime? {
      EdgesFindOverlaps(rows, f1, atStart.value, atEnd.value);
    }
    r := ResolveOverlapping(fact, conflicts, allowMomentaneous, sep);
  }

  /** The guarantee above needs both times. A fact given only a start, before
      the start of a fact that is still running, is ended at now, and none of
      the queries finds the running fact, although the two overlap: here the
      running fact starts at 10:00, the new one at 9:00, and now is 11:00. */
  lemma OpenEndedOverRunningFact()
    ensures
      var running := FactRec(Some(1), None, LDateTime(DateTime(36000, 0, None)), LNone, None, [], false, None, {});
      var f := FactRec(None, None, LDateTime(DateTime(32400, 0, None)), LNone, None, [], false, None, {});
      var now := DateTime(39600, 0, None);
      var ended := f.(end := LDateTime(now));
      && RowsOk([running])
      && EndPerSubsequent([running], f, now) == Success(LDateTime(now))
      && AtEdge([running], At(f.start), StartingAtQuery([running], f)) == Success([])
      && During([running], ended) == []
      && Overlaps(running, ended)
  {
    var running := FactRec(Some(1), None, LDateTime(DateTime(36000, 0, None)), LNone, None, [], false, None, {});
    var f := FactRec(None, None, LDateTime(DateTime(32400, 0, None)), LNone, None, [], false, None, {});
    var now := DateTime(39600, 0, None);
    assert !Matches(EndingAfter(At(f.start), f.pk), running);
    assert !Matches(Around(At(f.start)), running);
    assert !Matches(StartingAt(At(f.start), f.pk), running);
    assert !Matches(Within(At(f.start), Micros(now)), running);
  }
}
