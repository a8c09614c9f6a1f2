/** The fact item (nark/items/fact.py): a span of time spent on an activity,
    with a description and tags. Facts are objects whose setters normalise
    what they store and which `squash` and the conflict resolution of the fact
    manager change in place. */
module FactItem {
  import opened Wrappers
  import opened Clock
  import PyText
  import TimeHelpers
  import FormatText
  import Parsing

  /** A category as a fact sees it. nark/items/category.py, activity.py and
      tag.py are not part of this model: categories, activities and tags are
      compared as values, on their key and name. */
  datatype Category = Category(pk: Option<int>, name: string)

  datatype Activity = Activity(pk: Option<int>, name: string, category: Option<Category>)

  datatype Tag = Tag(pk: Option<int>, name: string)

  /** An entry of the iterable handed to `tags_replace`: a bare name or a Tag. */
  datatype TagArg = TagName(name: string) | TagItem(tag: Tag)

  /** The key slot of a tuple: the key itself, or False when `include_pk` is off. */
  datatype PkSlot = PkValue(pk: Option<int>) | PkFalse

  datatype CategoryTuple = CategoryTuple(pk: PkSlot, name: string)

  datatype ActivityTuple = ActivityTuple(pk: PkSlot, name: string, category: Option<CategoryTuple>)

  datatype TagTuple = TagTuple(pk: PkSlot, name: string)

  /** `FactTuple`: the fields fact equality looks at, tags as a frozen set. */
  datatype FactTuple = FactTuple(pk: PkSlot, activity: Option<ActivityTuple>, start: Loose, end: Loose,
                                 description: Option<string>, tags: set<TagTuple>, deleted: bool,
                                 splitFrom: Option<int>)

  /** Every field of a fact, as one value. */
  datatype FactRec = FactRec(pk: Option<int>, activity: Option<Activity>, start: Loose, end: Loose,
                             description: Option<string>, tags: seq<Tag>, deleted: bool,
                             splitFrom: Option<int>, dirtyReasons: set<string>)

  datatype FactError =
    | Time(error: TimeHelpers.TimeError)   // from the start/end setters or the range check
    | Unsubtractable                       // TypeError: `end - start` without two datetimes of one kind
    | MissingActivity                      // ValueError: no activity name and not lenient
    | MissingHelper(name: string)          // AttributeError: the time module has no such helper

  function Slot(pk: Option<int>, includePk: bool): PkSlot {
    if includePk then PkValue(pk) else PkFalse
  }

  function ActivityAsTuple(a: Activity, includePk: bool): ActivityTuple {
    ActivityTuple(Slot(a.pk, includePk), a.name,
                  if a.category.Some? then Some(CategoryTuple(Slot(a.category.value.pk, includePk), a.category.value.name)) else None)
  }

  function TagAsTuple(t: Tag, includePk: bool): TagTuple {
    TagTuple(Slot(t.pk, includePk), t.name)
  }

  /** The frozen set of tag tuples in a fact's tuple. */
  function TagTuples(ts: seq<Tag>, includePk: bool): set<TagTuple> {
    set t | t in ts :: TagAsTuple(t, includePk)
  }

  /** `tagn if isinstance(tagn, Tag) else Tag(name=tagn)`. */
  function AsTag(a: TagArg): Tag {
    match a
    case TagName(n) => Tag(None, n)
    case TagItem(t) => t
  }

  /** The tags `tags_replace` keeps for an argument list: one per distinct tag. */
  function TagSet(args: seq<TagArg>): set<Tag> {
    set a | a in args :: AsTag(a)
  }

  function TagItems(ts: seq<Tag>): (r: seq<TagArg>)
    ensures |r| == |ts| && forall i :: 0 <= i < |ts| ==> r[i] == TagItem(ts[i])
  {
    if ts == [] then [] else [TagItem(ts[0])] + TagItems(ts[1..])
  }

  function TagNames(names: seq<string>): (r: seq<TagArg>)
    ensures |r| == |names| && forall i :: 0 <= i < |names| ==> r[i] == TagName(names[i])
  {
    if names == [] then [] else [TagName(names[0])] + TagNames(names[1..])
  }

  /** Wrapping tags as arguments keeps exactly those tags. */
  lemma TagItemsSet(ts: seq<Tag>)
    ensures TagSet(TagItems(ts)) == set t | t in ts
  {
    forall t | t in ts
      ensures t in TagSet(TagItems(ts))
    {
      var k :| 0 <= k < |ts| && ts[k] == t;
      assert AsTag(TagItems(ts)[k]) == t;
    }
  }

  /** Tags given by name are new tags, one per distinct name. */
  lemma TagNamesSet(names: seq<string>)
    ensures TagSet(TagNames(names)) == set n | n in names :: Tag(None, n)
  {
    forall n | n in names
      ensures Tag(None, n) in TagSet(TagNames(names))
    {
      var k :| 0 <= k < |names| && names[k] == n;
      assert AsTag(TagNames(names)[k]) == Tag(None, n);
    }
  }

  lemma ElementsOfConcat<T>(a: seq<T>, b: seq<T>)
    ensures (set x | x in a + b) == (set x | x in a) + (set x | x in b)
  {
  }

  predicate Distinct<T(==)>(xs: seq<T>) {
    forall i, j :: 0 <= i < j < |xs| ==> xs[i] != xs[j]
  }

  /** A time slot as the setters leave it: a value `must_be_datetime_or_relative`
      passes through unchanged. */
  predicate Settled(v: Loose) {
    TimeHelpers.MustBeDatetimeOrRelative(v) == Success(v)
  }

  predicate Falsy(d: Option<string>) {
    d.None? || d.value == []
  }

  /** What the description setter stores: None for a false value, the text otherwise. */
  function NormalDescription(d: Option<string>): Option<string> {
    if Falsy(d) then None else d
  }

  /** The description `description_squash` leaves on the receiving fact. */
  function SquashedDescription(mine: Option<string>, theirs: Option<string>, sep: string): Option<string> {
    if Falsy(theirs) then mine
    else
      var base := if mine.Some? then mine.value else "";
      Some(base + (if base != [] then sep else "") + theirs.value)
  }

  /** What the setters keep: settled times, never an empty description,
      no tag twice. */
  predicate RecValid(r: FactRec) {
    Settled(r.start) && Settled(r.end) && r.description != Some([]) && Distinct(r.tags)
  }

  /** A fact's time as tuple equality sees it: an aware datetime is moved to
      UTC, so that two readings of one instant compare equal, as Python's
      `==` on aware datetimes has them; anything else is kept as it is. */
  function TimeKey(m: Loose): (k: Loose)
    ensures m.LDateTime? <==> k.LDateTime?
    ensures !m.LDateTime? ==> k == m
    ensures m.LDateTime? ==> k.dt.Aware() == m.dt.Aware() && Micros(k.dt) == Micros(m.dt)
  {
    if m.LDateTime? && m.dt.offset.Some? then LDateTime(DateTime(m.dt.Instant(), m.dt.micro, Some(0))) else m
  }

  /** Python's `==` on two fact times: datetimes by `DateTimeEquals`,
      anything else by value. */
  predicate SameMoment(a: Loose, b: Loose) {
    if a.LDateTime? && b.LDateTime? then DateTimeEquals(a.dt, b.dt) else a == b
  }

  /** The tuples of the sorted tags carry the names of the tags. */
  lemma TagTupleNames(ts: seq<Tag>, includePk: bool)
    ensures (set t | t in TagTuples(SortByName(ts), includePk) :: t.name) == (set t | t in ts :: t.name)
  {
    var sorted := SortByName(ts);
    assert forall t :: t in sorted <==> t in multiset(sorted);
    var names, tupleNames := (set t | t in ts :: t.name), (set t | t in TagTuples(sorted, includePk) :: t.name);
    forall n | n in names
      ensures n in tupleNames
    {
      var t :| t in ts && t.name == n;
      assert t in multiset(ts);
      assert TagAsTuple(t, includePk) in TagTuples(sorted, includePk);
    }
  }

  /** The key of a time identifies it exactly up to Python's `==`. */
  lemma TimeKeyExact(a: Loose, b: Loose)
    ensures TimeKey(a) == TimeKey(b) <==> SameMoment(a, b)
  {
    if a.LDateTime? && b.LDateTime? && DateTimeEquals(a.dt, b.dt) {
      MicrosSplit(a.dt, b.dt);
    }
  }

  /** Equal microsecond counts have equal whole seconds and microseconds. */
  lemma MicrosSplit(x: DateTime, y: DateTime)
    requires Micros(x) == Micros(y)
    ensures x.Instant() == y.Instant() && x.micro == y.micro
  {
  }

  /** `as_tuple` on a fact's fields: with `include_pk` off, the keys of the
      fact, its activity and its tags all read False. */
  function RecTuple(r: FactRec, includePk: bool): FactTuple {
    FactTuple(Slot(r.pk, includePk),
              if r.activity.Some? then Some(ActivityAsTuple(r.activity.value, includePk)) else None,
              TimeKey(r.start), TimeKey(r.end), r.description,
              TagTuples(SortByName(r.tags), includePk),
              r.deleted, r.splitFrom)
  }

  /** Squashing appends the other description, after a separator only when
      there was a description to separate it from. */
  lemma SquashedDescriptionParts(mine: Option<string>, theirs: Option<string>, sep: string)
    requires mine != Some([])
    ensures Falsy(theirs) ==> SquashedDescription(mine, theirs, sep) == mine
    ensures !Falsy(theirs) && mine.None? ==> SquashedDescription(mine, theirs, sep) == theirs
    ensures !Falsy(theirs) && mine.Some? ==>
      var d := SquashedDescription(mine, theirs, sep).value;
      |d| == |mine.value| + |sep| + |theirs.value| && d[..|mine.value|] == mine.value
      && d[|mine.value|..|mine.value| + |sep|] == sep && d[|mine.value| + |sep|..] == theirs.value
    ensures !Falsy(theirs) ==> !Falsy(SquashedDescription(mine, theirs, sep))
  {
    if !Falsy(theirs) && mine.Some? {
      var m, t := mine.value, theirs.value;
      var d := SquashedDescription(mine, theirs, sep).value;
      assert d == m + sep + t;
      assert d[..|m|] == m;
      assert d[|m|..|m| + |sep|] == sep;
      assert d[|m| + |sep|..] == t;
    } else if !Falsy(theirs) {
      assert "" + "" + theirs.value == theirs.value;
    }
  }

  // ---- Ordering tags by name ----

  /** Python's `<=` on text: code point by code point, a prefix first. */
  predicate LexLe(a: string, b: string)
    decreases |a|
  {
    a == [] || (b != [] && (a[0] < b[0] || (a[0] == b[0] && LexLe(a[1..], b[1..]))))
  }

  lemma {:induction false} LexLeTotal(a: string, b: string)
    ensures LexLe(a, b) || LexLe(b, a)
    decreases |a|
  {
    if a != [] && b != [] && a[0] == b[0] {
      LexLeTotal(a[1..], b[1..]);
    }
  }

  lemma {:induction false} LexLeTrans(a: string, b: string, c: string)
    requires LexLe(a, b) && LexLe(b, c)
    ensures LexLe(a, c)
    decreases |a|
  {
    if a != [] && a[0] == b[0] && b[0] == c[0] {
      LexLeTrans(a[1..], b[1..], c[1..]);
    }
  }

  predicate SortedByName(ts: seq<Tag>) {
    forall i, j :: 0 <= i < j < |ts| ==> LexLe(ts[i].name, ts[j].name)
  }

  /** Places `t` before the first tag whose name is not smaller, so that
      tags of one name keep their order. */
  function InsertByName(t: Tag, ts: seq<Tag>): (r: seq<Tag>)
    ensures multiset(r) == multiset(ts) + multiset{t}
  {
    if ts == [] || LexLe(t.name, ts[0].name) then [t] + ts
    else
      assert ts == [ts[0]] + ts[1..];
      [ts[0]] + InsertByName(t, ts[1..])
  }

  /** `sorted(tags, key=attrgetter('name'))`: a stable sort by name. */
  function SortByName(ts: seq<Tag>): (r: seq<Tag>)
    ensures multiset(r) == multiset(ts)
  {
    if ts == [] then []
    else
      assert ts == [ts[0]] + ts[1..];
      InsertByName(ts[0], SortByName(ts[1..]))
  }

  lemma {:induction false} InsertByNameSorted(t: Tag, ts: seq<Tag>)
    requires SortedByName(ts)
    ensures SortedByName(InsertByName(t, ts))
  {
    if ts == [] || LexLe(t.name, ts[0].name) {
      forall j | 1 < j < |ts| + 1
        ensures LexLe(t.name, ([t] + ts)[j].name)
      {
        LexLeTrans(t.name, ts[0].name, ts[j - 1].name);
      }
    } else {
      LexLeTotal(t.name, ts[0].name);
      InsertByNameSorted(t, ts[1..]);
      var rest := InsertByName(t, ts[1..]);
      forall u: Tag | u in multiset(rest)
        ensures LexLe(ts[0].name, u.name)
      {
        assert u in multiset(ts[1..]) + multiset{t};
        if u != t || u in ts[1..] {
          var k :| 0 <= k < |ts[1..]| && ts[1..][k] == u;
          assert ts[k + 1] == u;
        }
      }
      forall j | 0 < j < |rest| + 1
        ensures LexLe(ts[0].name, ([ts[0]] + rest)[j].name)
      {
        assert rest[j - 1] in multiset(rest);
      }
    }
  }

  /** The sort orders by name and is a permutation. */
  lemma {:induction false} SortByNameSorted(ts: seq<Tag>)
    ensures SortedByName(SortByName(ts))
    ensures multiset(SortByName(ts)) == multiset(ts)
  {
    if ts != [] {
      SortByNameSorted(ts[1..]);
      InsertByNameSorted(ts[0], SortByName(ts[1..]));
    }
  }

  // ---- Durations ----

  /** A datetime's position on the time line in microseconds: the wall clock
      for a naive value, UTC for an aware one, as `datetime.__sub__` uses. */
  function Micros(dt: DateTime): int {
    dt.Instant() * 1000000 + dt.micro
  }

  const MicrosPerHour: int := 3600000000

  const MicrosPerMinute: int := 60000000

  /** `int(seconds / 3600)`: whole hours, truncated toward zero. */
  function DeltaHours(us: int): int {
    if us >= 0 then us / MicrosPerHour else -((-us) / MicrosPerHour)
  }

  /** `int((seconds % 3600) / 60)`: Python's `%` leaves a remainder in
      [0, 3600), so these are the whole minutes past the (floored) hour. */
  function DeltaMinutes(us: int): int {
    (us % MicrosPerHour) / MicrosPerMinute
  }

  /** The three non-pedantic renderings of a duration; None for any other
      format, whose float-based rendering is not part of this model. */
  function FormatDelta(us: int, formatting: string): Option<string> {
    var hours, minutes := DeltaHours(us), DeltaMinutes(us);
    if formatting == "%M" then Some(PyText.Itos(minutes))
    else if formatting == "%H:%M" then Some(PyText.ZeroPad(hours, 2) + ":" + PyText.ZeroPad(minutes, 2))
    else if formatting == "HHhMMm" then
      Some(PyText.SpacePad(hours, 2) + " " + (if hours == 1 then "hour " else "hours")
           + " " + PyText.SpacePad(minutes, 2) + " " + (if minutes == 1 then "minute " else "minutes"))
    else None
  }

  /** `delta()` in microseconds: `end - start`, with `now` standing in for a
      missing end; Python refuses to subtract unless both are datetimes of
      one kind. */
  function RecDelta(f: FactRec, now: DateTime): (r: Result<int, FactError>)
    ensures r.Success? <==>
      f.start.LDateTime? && (f.end.Truthy() ==> f.end.LDateTime?)
      && f.start.dt.Aware() == (if f.end.Truthy() then f.end.dt.Aware() else now.Aware())
    ensures r.Failure? ==> r.error == Unsubtractable
    ensures r.Success? ==> r.value == Micros(if f.end.Truthy() then f.end.dt else now) - Micros(f.start.dt)
  {
    var endTime := if f.end.Truthy() then f.end else LDateTime(now);
    if f.start.LDateTime? && endTime.LDateTime? && f.start.dt.Aware() == endTime.dt.Aware() then
      Success(Micros(endTime.dt) - Micros(f.start.dt))
    else Failure(Unsubtractable)
  }

  /** A non-negative duration splits into whole hours and the minutes within
      the last hour, the rest being less than a minute. */
  lemma DeltaSplit(us: int)
    requires us >= 0
    ensures 0 <= DeltaMinutes(us) < 60
    ensures DeltaHours(us) * MicrosPerHour + DeltaMinutes(us) * MicrosPerMinute <= us
    ensures us < DeltaHours(us) * MicrosPerHour + (DeltaMinutes(us) + 1) * MicrosPerMinute
  {
  }

  /** For a non-negative duration under a hundred hours, '%H:%M' is five
      characters: two digits of hours, a colon, two digits of minutes, which
      read back as the hours and minutes. */
  lemma ClockDeltaReadsBack(us: int)
    requires 0 <= us < 100 * MicrosPerHour
    ensures var text := FormatDelta(us, "%H:%M").value;
      && |text| == 5 && text[2] == ':'
      && PyText.AllDigits(text[..2]) && PyText.DigitsValue(text[..2]) == DeltaHours(us)
      && PyText.AllDigits(text[3..]) && PyText.DigitsValue(text[3..]) == DeltaMinutes(us)
  {
    var h, m := DeltaHours(us), DeltaMinutes(us);
    DeltaSplit(us);
    TwoDigits(h);
    TwoDigits(m);
    PyText.ZeroPadRoundTrip(h, 2);
    PyText.ZeroPadRoundTrip(m, 2);
    var text := FormatDelta(us, "%H:%M").value;
    assert text == PyText.ZeroPad(h, 2) + ":" + PyText.ZeroPad(m, 2);
    assert text[..2] == PyText.ZeroPad(h, 2);
    assert text[3..] == PyText.ZeroPad(m, 2);
  }

  lemma TwoDigits(n: nat)
    requires n < 100
    ensures |PyText.ZeroPad(n, 2)| == 2
  {
    assert |PyText.Itos(n)| <= 2 by {
      if n >= 10 {
        assert PyText.NatDigits(n) == PyText.NatDigits(n / 10) + [PyText.DigitChar(n % 10)];
      }
    }
  }

  /** 452 minutes: '%H:%M' gives "07:32", and '%M' only the minutes within
      the hour, "32". */
  lemma SevenHoursThirtyTwo()
    ensures FormatDelta(452 * MicrosPerMinute, "%H:%M") == Some("07:32")
    ensures FormatDelta(452 * MicrosPerMinute, "%M") == Some("32")
  {
    assert DeltaHours(452 * MicrosPerMinute) == 7;
    assert DeltaMinutes(452 * MicrosPerMinute) == 32;
    assert PyText.DigitChar(7) == '7' && PyText.DigitChar(3) == '3' && PyText.DigitChar(2) == '2';
    assert PyText.NatDigits(7) == "7";
    assert PyText.NatDigits(3) == "3";
    assert PyText.NatDigits(32) == PyText.NatDigits(3) + [PyText.DigitChar(2)] == "32";
    assert PyText.Itos(32) == "32";
    assert PyText.Repeat('0', 0) == "";
    assert PyText.Repeat('0', 1) == "0" + PyText.Repeat('0', 0);
    assert PyText.ZeroPad(7, 2) == "07";
    assert PyText.ZeroPad(32, 2) == "32";
    assert FormatDelta(452 * MicrosPerMinute, "%H:%M") == Some(PyText.ZeroPad(7, 2) + ":" + PyText.ZeroPad(32, 2));
    assert "07" + ":" + "32" == "07:32";
  }

  /** A fact as the database knows it, one field per column. */
  class Fact {
    var pk: Option<int>
    var activity: Option<Activity>
    var start: Loose
    var end: Loose
    var description: Option<string>
    var tags: seq<Tag>
    var deleted: bool
    var splitFrom: Option<int>
    var dirtyReasons: set<string>

    predicate Valid()
      reads this
    {
      RecValid(Rec())
    }

    function Rec(): FactRec
      reads this
    {
      FactRec(pk, activity, start, end, description, tags, deleted, splitFrom, dirtyReasons)
    }

    /** The slots `__init__` fills without a setter; the setter-backed slots
        start empty and `Create` fills them through their setters. */
    constructor(activity: Option<Activity>, pk: Option<int>, deleted: bool, splitFrom: Option<int>)
      ensures this.activity == activity && this.pk == pk && this.deleted == deleted && this.splitFrom == splitFrom
      ensures start == LNone && end == LNone && description.None? && tags == [] && dirtyReasons == {}
      ensures Valid()
    {
      this.pk := pk;
      this.activity := activity;
      this.start := LNone;
      this.end := LNone;
      this.description := None;
      this.tags := [];
      this.deleted := deleted;
      this.splitFrom := splitFrom;
      this.dirtyReasons := {};
    }

    /** A field-for-field copy, as `copy.deepcopy` makes. */
    constructor Clone(f: FactRec)
      ensures Rec() == f
    {
      this.pk := f.pk;
      this.activity := f.activity;
      this.start := f.start;
      this.end := f.end;
      this.description := f.description;
      this.tags := f.tags;
      this.deleted := f.deleted;
      this.splitFrom := f.splitFrom;
      this.dirtyReasons := f.dirtyReasons;
    }

    /** `Fact(...)`: the start and end setters may reject their value; the
        description and tags are normalised by their setters. */
    static method Create(activity: Option<Activity>, start: Loose, end: Loose, pk: Option<int>,
                         description: Option<string>, tags: seq<TagArg>, deleted: bool, splitFrom: Option<int>)
      returns (r: Result<Fact, FactError>)
      ensures r.Failure? <==>
        TimeHelpers.MustBeDatetimeOrRelative(start).Failure? || TimeHelpers.MustBeDatetimeOrRelative(end).Failure?
      ensures r.Failure? ==> r.error.Time?
      ensures r.Success? ==>
        var f := r.value;
        && fresh(f) && f.Valid()
        && f.pk == pk && f.activity == activity && f.deleted == deleted && f.splitFrom == splitFrom
        && f.start == TimeHelpers.MustBeDatetimeOrRelative(start).value
        && f.end == TimeHelpers.MustBeDatetimeOrRelative(end).value
        && f.description == NormalDescription(description)
        && (set t | t in f.tags) == TagSet(tags)
        && f.dirtyReasons == {}
    {
      var f := new Fact(activity, pk, deleted, splitFrom);
      var rs := f.SetStart(start);
      if rs.Failure? {
        return Failure(rs.error);
      }
      var re := f.SetEnd(end);
      if re.Failure? {
        return Failure(re.error);
      }
      f.SetDescription(description);
      f.TagsReplace(tags);
      return Success(f);
    }

    /** The `start` setter: the value passes `must_be_datetime_or_relative`
        or the slot keeps its old value and the error is raised. */
    method SetStart(v: Loose) returns (r: Result<(), FactError>)
      modifies this`start
      ensures r.Failure? <==> TimeHelpers.MustBeDatetimeOrRelative(v).Failure?
      ensures r.Failure? ==> r.error == Time(TimeHelpers.MustBeDatetimeOrRelative(v).error) && start == old(start)
      ensures r.Success? ==> start == TimeHelpers.MustBeDatetimeOrRelative(v).value && Settled(start)
    {
      var n := TimeHelpers.MustBeDatetimeOrRelative(v);
      if n.Failure? {
        return Failure(Time(n.error));
      }
      TimeHelpers.MustBeDatetimeOrRelativeIdempotent(v);
      start := n.value;
      return Success(());
    }

    /** The `end` setter, the same check as the start's. */
    method SetEnd(v: Loose) returns (r: Result<(), FactError>)
      modifies this`end
      ensures r.Failure? <==> TimeHelpers.MustBeDatetimeOrRelative(v).Failure?
      ensures r.Failure? ==> r.error == Time(TimeHelpers.MustBeDatetimeOrRelative(v).error) && end == old(end)
      ensures r.Success? ==> end == TimeHelpers.MustBeDatetimeOrRelative(v).value && Settled(end)
    {
      var n := TimeHelpers.MustBeDatetimeOrRelative(v);
      if n.Failure? {
        return Failure(Time(n.error));
      }
      TimeHelpers.MustBeDatetimeOrRelativeIdempotent(v);
      end := n.value;
      return Success(());
    }

    /** The `description` setter: a false value is stored as None, anything
        else as given. */
    method SetDescription(d: Option<string>)
      modifies this`description
      ensures description.None? <==> Falsy(d)
      ensures description.Some? ==> description == d && description != Some([])
    {
      description := NormalDescription(d);
    }

    /** `description_squash`: moves the other fact's description onto the end
        of this one (after `sep` when this one had a description) and clears
        it; nothing happens when the other has none. When the other fact is
        this one, the final clearing wins. */
    method DescriptionSquash(other: Fact, sep: string)
      modifies this`description, other`description
      ensures Falsy(old(other.description)) ==> description == old(description) && other.description == old(other.description)
      ensures !Falsy(old(other.description)) ==> other.description.None?
      ensures !Falsy(old(other.description)) && other != this ==>
        description == SquashedDescription(old(description), old(other.description), sep)
    {
      if Falsy(other.description) {
        return;
      }
      var base := if description.Some? then description.value else "";
      var joined := base + (if base != [] then sep else "") + other.description.value;
      SetDescription(Some(joined));
      other.description := None;
    }

    /** `tags_replace`: one tag per distinct entry, names wrapped as new tags,
        stored as a list. The order of a Python set is not modelled; the list
        keeps first occurrences. */
    method TagsReplace(args: seq<TagArg>)
      modifies this`tags
      ensures Distinct(tags)
      ensures (set t | t in tags) == TagSet(args)
    {
      var acc: seq<Tag> := [];
      var i := 0;
      while i < |args|
        invariant 0 <= i <= |args|
        invariant Distinct(acc)
        invariant (set t | t in acc) == TagSet(args[..i])
      {
        var t := AsTag(args[i]);
        assert args[..i + 1] == args[..i] + [args[i]];
        assert TagSet(args[..i + 1]) == TagSet(args[..i]) + {t};
        if t !in acc {
          acc := acc + [t];
        }
        i := i + 1;
      }
      assert args[..i] == args;
      tags := acc;
    }

    /** `tags_sorted`: the fact's tags ordered by name. */
    function TagsSorted(): (r: seq<Tag>)
      reads this
      ensures SortedByName(r) && multiset(r) == multiset(tags)
    {
      SortByNameSorted(tags);
      SortByName(tags)
    }

    /** `as_tuple`: with `include_pk` off, the keys of the fact, its activity
        and its tags all read False. */
    function AsTuple(includePk: bool): (r: FactTuple)
      reads this
      ensures includePk ==> r.pk == PkValue(pk)
      ensures !includePk ==>
        && r.pk == PkFalse && (r.activity.Some? ==> r.activity.value.pk == PkFalse)
        && forall t | t in r.tags :: t.pk == PkFalse
      ensures (set t | t in r.tags :: t.name) == (set t | t in tags :: t.name)
      ensures r.description == description && r.deleted == deleted && r.splitFrom == splitFrom
    {
      TagTupleNames(tags, includePk);
      RecTuple(Rec(), includePk)
    }

    /** `__eq__`: the tuples agree, so the keys, the texts and the flags are
        the same and the times are equal as Python compares them. */
    predicate Equals(other: Fact)
      reads this, other
      ensures Equals(other) ==>
        && pk == other.pk && description == other.description && deleted == other.deleted
        && splitFrom == other.splitFrom
        && SameMoment(start, other.start) && SameMoment(end, other.end)
    {
      TimeKeyExact(start, other.start);
      TimeKeyExact(end, other.end);
      AsTuple(true) == other.AsTuple(true)
    }

    /** `equal_fields`: equality with every key left out; the texts, the
        flags and the times still have to agree. */
    predicate EqualFields(other: Fact)
      reads this, other
      ensures EqualFields(other) ==>
        && description == other.description && deleted == other.deleted && splitFrom == other.splitFrom
        && SameMoment(start, other.start) && SameMoment(end, other.end)
    {
      TimeKeyExact(start, other.start);
      TimeKeyExact(end, other.end);
      AsTuple(false) == other.AsTuple(false)
    }

    /** `times_ok`: both ends are datetimes. */
    predicate TimesOk()
      reads this
    {
      start.LDateTime? && end.LDateTime?
    }

    /** `momentaneous`: both ends are datetimes and they are equal. */
    predicate Momentaneous()
      reads this
    {
      TimesOk() && DateTimeEquals(start.dt, end.dt)
    }

    /** `delta()`: `end - start` in microseconds, `now` standing in for a
        missing end; a fact with both times has the same delta at any `now`. */
    function Delta(now: DateTime): (r: Result<int, FactError>)
      reads this
      ensures !start.LDateTime? ==> r == Failure(Unsubtractable)
      ensures TimesOk() ==>
        (r.Success? <==> start.dt.Aware() == end.dt.Aware())
        && (r.Success? ==> r.value == Micros(end.dt) - Micros(start.dt))
      ensures start.LDateTime? && !end.Truthy() ==>
        (r.Success? <==> start.dt.Aware() == now.Aware())
        && (r.Success? ==> r.value == Micros(now) - Micros(start.dt))
    {
      RecDelta(Rec(), now)
    }

    /** `get_string_delta` for the '%M', '%H:%M' and 'HHhMMm' formats. */
    function GetStringDelta(formatting: string, now: DateTime): (r: Result<Option<string>, FactError>)
      reads this
      ensures r.Failure? <==> Delta(now).Failure?
      ensures r.Success? ==> r.value == FormatDelta(Delta(now).value, formatting)
      ensures r.Success? ==> (r.value.Some? <==> formatting in ["%M", "%H:%M", "HHhMMm"])
    {
      match Delta(now)
      case Failure(e) => Failure(e)
      case Success(us) => Success(FormatDelta(us, formatting))
    }

    /** `activity_name`: '' without an activity. */
    function ActivityName(): string
      reads this
    {
      if activity.Some? then activity.value.name else ""
    }

    /** `category_name`: '' without an activity or without a category. */
    function CategoryName(): string
      reads this
    {
      if activity.Some? && activity.value.category.Some? then activity.value.category.value.name else ""
    }

    /** `actegory_string` with colouring off: '' with neither name, '@' with
        only a category, 'activity@category' otherwise; quoted when shellified. */
    function ActegoryString(shellify: bool): (r: string)
      reads this
      ensures ActivityName() == [] && CategoryName() == [] ==> r == (if shellify then "\"\"" else "")
      ensures ActivityName() == [] && CategoryName() != [] ==> r == (if shellify then "\"@\"" else "@")
      ensures ActivityName() != [] && !shellify ==>
        |r| > |ActivityName()| && r[..|ActivityName()|] == ActivityName() && r[|ActivityName()|] == '@'
        && r[|ActivityName()| + 1..] == CategoryName()
    {
      var actCat :=
        if ActivityName() == [] then (if CategoryName() == [] then "" else "@")
        else ActivityName() + "@" + CategoryName();
      if shellify then "\"" + actCat + "\"" else actCat
    }

    /** `description_string`: '' without a description, otherwise `sep` and
        the description, kept verbatim without a `cutWidth` and otherwise put
        on one line and cut to that width. */
    function DescriptionString(cutWidth: Option<int>, sep: string): (r: string)
      reads this
      ensures Falsy(description) ==> r == []
      ensures !Falsy(description) && cutWidth.None? ==> r == sep + description.value
      ensures !Falsy(description) && cutWidth.Some? ==>
        |r| >= |sep| && r[..|sep|] == sep && FormatText.NoBreak(r[|sep|..])
      ensures !Falsy(description) && cutWidth.Some?
              && (cutWidth.value < 0 || |FormatText.Escaped(description.value)| <= cutWidth.value) ==>
        r == sep + FormatText.Escaped(description.value)
      ensures !Falsy(description) && cutWidth.Some? && 3 <= cutWidth.value < |FormatText.Escaped(description.value)| ==>
        |r| == |sep| + cutWidth.value
    {
      var d := if description.Some? then description.value else "";
      if d == [] then d
      else if cutWidth.None? then sep + d
      else sep + FormatText.FormatValueTruncate(d, cutWidth)
    }

    /** `squash`: an ongoing fact absorbs a fact that has only one end. This
        fact ends where the other starts (or, lacking a start, ends), takes
        the other's activity when it names an activity or a category, gains
        its tags and description; the other is marked deleted and given this
        fact's times. The conditions are the assertions the code opens with. */
    method Squash(other: Fact, sep: string)
      requires other != this && Valid() && other.Valid()
      requires other.pk.None? || other.pk.value < 0
      requires !deleted && !other.deleted
      requires other.splitFrom.None? || other.splitFrom.value == 0
      requires start.Truthy() && !end.Truthy()
      requires !(other.start.Truthy() && other.end.Truthy())
      requires other.start.Truthy() || other.end.Truthy()
      modifies this`end, this`activity, this`tags, this`description,
               other`deleted, other`start, other`end, other`description
      ensures end == (if old(other.start).Truthy() then old(other.start) else old(other.end)) && end.Truthy()
      ensures activity == (if old(other.ActivityName()) != [] || old(other.CategoryName()) != [] then old(other.activity) else old(activity))
      ensures Distinct(tags) && (set t | t in tags) == (set t | t in old(tags)) + (set t | t in old(other.tags))
      ensures description == SquashedDescription(old(description), old(other.description), sep)
      ensures !Falsy(old(other.description)) ==> other.description.None?
      ensures other.deleted && other.start == start && other.end == end
      ensures Valid() && other.Valid()
    {
      var newEnd := if other.start.Truthy() then other.start else other.end;
      var re := SetEnd(newEnd);
      assert re.Success?;
      AbsorbActivityAndTags(other);
      DescriptionSquash(other, sep);
      SquashedDescriptionParts(old(description), old(other.description), sep);
      other.MarkSquashed(start, end);
    }

    /** The middle of `squash`: the other fact's activity replaces this one's
        when it names an activity or a category, and its tags join this one's. */
    method AbsorbActivityAndTags(other: Fact)
      requires other != this
      modifies this`activity, this`tags
      ensures activity == (if other.ActivityName() != [] || other.CategoryName() != [] then other.activity else old(activity))
      ensures Distinct(tags) && (set t | t in tags) == (set t | t in old(tags)) + (set t | t in other.tags)
    {
      if other.ActivityName() != [] || other.CategoryName() != [] {
        activity := other.activity;
      }
      var mine, theirs := tags, other.tags;
      TagsReplace(TagItems(mine + theirs));
      TagItemsSet(mine + theirs);
      ElementsOfConcat(mine, theirs);
    }

    /** The end of `squash` for the absorbed fact: deleted, with the times of
        the fact that absorbed it. */
    method MarkSquashed(newStart: Loose, newEnd: Loose)
      requires Settled(newStart) && Settled(newEnd)
      modifies this`deleted, this`start, this`end
      ensures deleted && start == newStart && end == newEnd
    {
      deleted := true;
      var rs := SetStart(newStart);
      assert rs.Success?;
      var re := SetEnd(newEnd);
      assert re.Success?;
    }

    /** `copy`: a new fact built through the constructor from this one's
        fields and reasons, keeping the key only when asked. */
    method Copy(includePk: bool) returns (f: Fact)
      requires Valid()
      ensures fresh(f) && f.Valid()
      ensures f.Rec() == Rec().(pk := if includePk then pk else None)
    {
      var r := Create(activity, start, end, None, description, TagItems(tags), deleted, splitFrom);
      assert r.Success?;
      f := r.value;
      TagItemsSet(tags);
      f.tags := tags;
      f.dirtyReasons := dirtyReasons;
      if includePk {
        f.pk := pk;
      }
    }
  }

  /** Python's `==` on datetimes: naive values by wall clock, aware ones by
      instant; a naive value never equals an aware one. */
  predicate DateTimeEquals(a: DateTime, b: DateTime) {
    a.Aware() == b.Aware() && Micros(a) == Micros(b)
  }

  /** Shellifying only wraps the plain string in double quotes: a fact doing
      'a' in category 'b' reads "a@b", quotes included. */
  lemma ShellifiedActegory(f: Fact)
    ensures f.ActegoryString(true) == "\"" + f.ActegoryString(false) + "\""
    ensures f.activity == Some(Activity(None, "a", Some(Category(None, "b")))) ==>
      f.ActegoryString(true) == "\"a@b\""
  {
  }

  /** A momentaneous fact lasts no time at all. */
  lemma MomentaneousLastsNothing(f: Fact, now: DateTime)
    requires f.Momentaneous()
    ensures f.Delta(now) == Success(0)
  {
  }

  /** Facts whose times differ only in how they write the same instants are
      equal: 10:00 at UTC+1 is 09:00 at UTC. */
  lemma SameInstantsEqual(a: Fact, b: Fact)
    requires a.Rec().(start := LNone, end := LNone) == b.Rec().(start := LNone, end := LNone)
    requires SameMoment(a.start, b.start) && SameMoment(a.end, b.end)
    ensures a.Equals(b) && a.EqualFields(b)
  {
    TimeKeyExact(a.start, b.start);
    TimeKeyExact(a.end, b.end);
    assert a.Rec().tags == b.Rec().tags;
  }

  /** Ten o'clock at UTC+1 and nine o'clock at UTC are the same moment, and
      an aware reading never equals a naive one. */
  lemma OneInstantTwoOffsets()
    ensures SameMoment(LDateTime(DateTime(36000, 0, Some(3600))), LDateTime(DateTime(32400, 0, Some(0))))
    ensures !SameMoment(LDateTime(DateTime(32400, 0, Some(0))), LDateTime(DateTime(32400, 0, None)))
  {
  }

  /** Equal facts have equal fields. */
  lemma EqualsThenEqualFields(a: Fact, b: Fact)
    requires a.Equals(b)
    ensures a.EqualFields(b)
  {
    TagTuplesDropKeys(a.TagsSorted(), b.TagsSorted());
  }

  /** Tag tuples with keys determine the tags, so they determine the tuples
      without keys. */
  lemma TagTuplesDropKeys(xs: seq<Tag>, ys: seq<Tag>)
    requires TagTuples(xs, true) == TagTuples(ys, true)
    ensures TagTuples(xs, false) == TagTuples(ys, false)
  {
    forall t | t in xs
      ensures t in ys
    {
      assert TagAsTuple(t, true) in TagTuples(ys, true);
    }
    forall t | t in ys
      ensures t in xs
    {
      assert TagAsTuple(t, true) in TagTuples(xs, true);
    }
    assert (set t | t in xs) == (set t | t in ys);
  }

  /** Facts that differ only in their own key have equal fields, and are
      equal exactly when the keys agree. */
  lemma KeyOnlyDifference(a: Fact, b: Fact)
    requires a.Rec().(pk := None) == b.Rec().(pk := None)
    ensures a.EqualFields(b)
    ensures a.Equals(b) <==> a.pk == b.pk
  {
    if a.Equals(b) {
      assert a.AsTuple(true).pk == b.AsTuple(true).pk;
    }
  }

  /** Tuples, and so equality, do not depend on the order of the tags. */
  lemma TagOrderIrrelevant(a: Fact, b: Fact, includePk: bool)
    requires a.Rec().(tags := []) == b.Rec().(tags := [])
    requires multiset(a.tags) == multiset(b.tags)
    ensures a.AsTuple(includePk) == b.AsTuple(includePk)
  {
    SortedTagTuples(a.tags, b.tags, includePk);
  }

  /** Sorting tags that are a permutation of each other gives the same set
      of tag tuples. */
  lemma SortedTagTuples(xs: seq<Tag>, ys: seq<Tag>, includePk: bool)
    requires multiset(xs) == multiset(ys)
    ensures TagTuples(SortByName(xs), includePk) == TagTuples(SortByName(ys), includePk)
  {
    var sx, sy := SortByName(xs), SortByName(ys);
    assert multiset(sx) == multiset(sy);
    forall t
      ensures t in sx <==> t in sy
    {
      assert t in sx <==> t in multiset(sx);
      assert t in sy <==> t in multiset(sy);
    }
    assert (set t | t in sx) == (set t | t in sy);
  }

  /** `create_from_parsed_fact` as the code is written: its first step calls
      `time_helpers.validate_start_end_range`, which nark/helpers/time.py does
      not define, so every call raises AttributeError. */
  function CreateFromParsedFactAsWritten(parsed: Parsing.ParsedFact, lenient: bool): (r: Result<(), FactError>)
    ensures r == Failure(MissingHelper("validate_start_end_range"))
  {
    Failure(MissingHelper("validate_start_end_range"))
  }

  /** A parse any correct version accepts is refused as written. */
  lemma ParsedFactAlwaysRefused()
    ensures var p := Parsing.ParsedFact(LNone, LNone, "coding", "", "", []);
      && CreateFromParsedFactAsWritten(p, false).Failure?
      && TimeHelpers.MustNotStartAfterEnd(p.start, p.end).Success?
      && TimeHelpers.MustBeDatetimeOrRelative(p.start).Success?
      && TimeHelpers.MustBeDatetimeOrRelative(p.end).Success?
      && p.activity != []
  {
  }

  /** `create_from_parsed_fact` as evidently intended, with the range checked by
      `must_not_start_after_end`: the activity comes from the parsed name (an
      unnamed one when lenient, a ValueError otherwise), a category only from
      a non-empty name; description and tags as parsed. */
  method CreateFromParsedFact(parsed: Parsing.ParsedFact, lenient: bool) returns (r: Result<Fact, FactError>)
    ensures TimeHelpers.MustNotStartAfterEnd(parsed.start, parsed.end).Failure? ==>
      r == Failure(Time(TimeHelpers.MustNotStartAfterEnd(parsed.start, parsed.end).error))
    ensures TimeHelpers.MustNotStartAfterEnd(parsed.start, parsed.end).Success? ==>
      (r == Failure(MissingActivity) <==> parsed.activity == [] && !lenient)
    ensures r.Success? ==>
      var f := r.value;
      && fresh(f) && f.Valid() && f.pk.None? && !f.deleted
      && f.ActivityName() == parsed.activity && f.activity.Some?
      && f.activity.value.category == (if parsed.category != [] then Some(Category(None, parsed.category)) else None)
      && f.description == NormalDescription(Some(parsed.description))
      && (set t | t in f.tags) == TagSet(TagNames(parsed.tags))
      && TimeHelpers.MustBeDatetimeOrRelative(parsed.start).Success?
      && TimeHelpers.MustBeDatetimeOrRelative(parsed.end).Success?
      && f.start == TimeHelpers.MustBeDatetimeOrRelative(parsed.start).value
      && f.end == TimeHelpers.MustBeDatetimeOrRelative(parsed.end).value
    ensures TimeHelpers.MustNotStartAfterEnd(parsed.start, parsed.end).Success? && (parsed.activity != [] || lenient) ==>
      (r.Success? <==> TimeHelpers.MustBeDatetimeOrRelative(parsed.start).Success?
                       && TimeHelpers.MustBeDatetimeOrRelative(parsed.end).Success?)
  {
    var range := TimeHelpers.MustNotStartAfterEnd(parsed.start, parsed.end);
    if range.Failure? {
      return Failure(Time(range.error));
    }
    var activity: Activity;
    if parsed.activity != [] {
      activity := Activity(None, parsed.activity, None);
    } else if lenient {
      activity := Activity(None, "", None);
    } else {
      return Failure(MissingActivity);
    }
    if parsed.category != [] {
      activity := activity.(category := Some(Category(None, parsed.category)));
    }
    r := Fact.Create(Some(activity), parsed.start, parsed.end, None, Some(parsed.description),
                     TagNames(parsed.tags), false, None);
  }
}
