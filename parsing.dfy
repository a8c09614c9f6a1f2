/** The factoid parser of nark/helpers/parsing.py: it splits a one-line fact
    such as `yesterday at 3 PM until now, act@cat #tag1 #tag2: what I did`
    into its two times, activity, category, tags and description.

    The regular expressions the parser compiles are modelled as functions on
    text that find the leftmost match the way Python's `re` does. Recognising
    and reading times (HamsterTimeSpec.discern, iso8601.parse_date,
    dateparser.parse) is delegated to a `TimeOracle` the caller supplies. */
module Parsing {
  import opened Wrappers
  import opened Clock
  import opened PyText

  /** The dict `parse_factoid` hands back: the two times (a datetime, a
      relative or clock time left as text, or None), the stripped names and
      description, and the tags. */
  datatype ParsedFact = ParsedFact(start: Loose, end: Loose, activity: string, category: string, description: string, tags: seq<string>)

  // ---------------------------------------------------------------------
  // Constants
  // ---------------------------------------------------------------------

  /** The separators between the two datetimes, as the text each one matches
      (the list holds them escaped for the regular expression: `\-`, `\|`). */
  const DateToDateWords: seq<string> := ["to", "until", "-", "|"]

  /** The default item separators: comma, colon and the line separator
      (a newline on POSIX). */
  const FactMetadataSeparators: seq<string> := [",", ":", "\n"]

  /** The default tag markers. */
  const DefaultHashStamps: string := "#@"

  /** The activity@category separator. */
  const ActegorySep: char := '@'

  /** Separators are literal, non-empty texts; at least one is in force. */
  predicate SeparatorsOk(seps: seq<string>) {
    |seps| > 0 && forall k | 0 <= k < |seps| :: seps[k] != []
  }

  /** Tag markers are literal characters other than whitespace. */
  predicate StampsOk(stamps: string) {
    forall k | 0 <= k < |stamps| :: !IsSpace(stamps[k])
  }

  // ---------------------------------------------------------------------
  // Errors
  // ---------------------------------------------------------------------

  /** The ParserException family. */
  datatype ParserError =
    | MissingDatetimeOne
    | MissingDatetimeTwo
    | InvalidDatetime(datepart: string)
    | MissingSeparatorActivity
    | MissingActivity

  /** What a parsing step raises: a ParserException, a failed `assert`, or the
      plain Exception for an unknown time hint. */
  datatype Raised =
    | ParserRaised(error: ParserError)
    | AssertionRaised(where: string)
    | BadTimeHint

  // ---------------------------------------------------------------------
  // Finding the activity separator
  // ---------------------------------------------------------------------

  /** `s.index(c)`, or None where `index` raises ValueError. */
  function FindChar(s: string, c: char): (r: Option<nat>)
    ensures r.Some? ==> r.value < |s| && s[r.value] == c && c !in s[..r.value]
    ensures r.None? <==> c !in s
  {
    if s == [] then None
    else if s[0] == c then Some(0)
    else match FindChar(s[1..], c)
      case None => None
      case Some(i) =>
        assert s[..i + 1] == [s[0]] + s[1..][..i];
        Some(i + 1)
  }

  /** `must_index_actegory_sep`: the index of the first '@'; without one,
      ParserMissingSeparatorActivity when `must`, else -1. */
  function MustIndexActegorySep(part: string, must: bool): (r: Result<int, Raised>)
    ensures r.Failure? <==> must && ActegorySep !in part
    ensures r.Failure? ==> r.error == ParserRaised(MissingSeparatorActivity)
    ensures r.Success? && r.value >= 0 ==>
      r.value < |part| && part[r.value] == ActegorySep && ActegorySep !in part[..r.value]
    ensures r.Success? && r.value < 0 ==> r.value == -1 && !must && ActegorySep !in part
    ensures r == Success(-1) || (r.Success? ==> r.value >= 0)
  {
    match FindChar(part, ActegorySep)
    case Some(i) => Success(i as int)
    case None => if must then Failure(ParserRaised(MissingSeparatorActivity)) else Success(-1)
  }

  // ---------------------------------------------------------------------
  // The item separator: (?<=\S)(sep1|sep2|...)(?=\s|$)
  // ---------------------------------------------------------------------

  /** Separator `sep` matches at `i`: it follows a non-space character and is
      followed by whitespace or the end of the text. */
  predicate ItemSepMatch(s: string, sep: string, i: int) {
    0 < i && i + |sep| <= |s| && !IsSpace(s[i - 1]) && s[i..i + |sep|] == sep
    && (i + |sep| == |s| || IsSpace(s[i + |sep|]))
  }

  /** The alternative the regular expression takes at `i`: the first
      separator, in list order, that matches there. */
  function FirstSep(s: string, seps: seq<string>, i: int): (r: Option<string>)
    ensures r.Some? ==> r.value in seps && ItemSepMatch(s, r.value, i)
  {
    if seps == [] then None
    else if ItemSepMatch(s, seps[0], i) then Some(seps[0])
    else FirstSep(s, seps[1..], i)
  }

  /** No alternative is taken only where no separator matches. */
  lemma {:induction false} FirstSepNone(s: string, seps: seq<string>, i: int)
    ensures FirstSep(s, seps, i).None? <==> forall sep | sep in seps :: !ItemSepMatch(s, sep, i)
  {
    if seps != [] {
      FirstSepNone(s, seps[1..], i);
      assert forall sep | sep in seps :: sep == seps[0] || sep in seps[1..];
    }
  }

  /** A text cut in three at a separator: `re.split(p, s, 1)` when `p` has one
      group and matches, giving [before, the group's text, after]. */
  datatype Cut = Cut(before: string, sep: string, after: string)

  /** Where the item separator's leftmost match at or after `i` starts. */
  function FirstItemSepFrom(s: string, seps: seq<string>, i: nat): (r: Option<nat>)
    requires i <= |s|
    ensures r.Some? ==> (i <= r.value <= |s| && FirstSep(s, seps, r.value).Some?
      && forall j | i <= j < r.value :: FirstSep(s, seps, j).None?)
    ensures r.None? ==> forall j | i <= j <= |s| :: FirstSep(s, seps, j).None?
    decreases |s| - i
  {
    if FirstSep(s, seps, i).Some? then Some(i)
    else if i == |s| then None
    else FirstItemSepFrom(s, seps, i + 1)
  }

  /** `re_item_sep.split(s, 1)`: the cut at the leftmost separator match, or
      None when the split leaves the text in one piece. */
  function SplitItem(s: string, seps: seq<string>): (r: Option<Cut>)
    ensures r.Some? ==>
      && s == r.value.before + r.value.sep + r.value.after
      && FirstSep(s, seps, |r.value.before|) == Some(r.value.sep)
      && forall j | 0 <= j < |r.value.before| :: FirstSep(s, seps, j).None?
    ensures r.None? ==> forall j | 0 <= j <= |s| :: FirstSep(s, seps, j).None?
  {
    match FirstItemSepFrom(s, seps, 0)
    case None => None
    case Some(i) =>
      var sep := FirstSep(s, seps, i).value;
      assert s == s[..i] + s[i..i + |sep|] + s[i + |sep|..];
      Some(Cut(s[..i], sep, s[i + |sep|..]))
  }

  function SubFrom(s: string, seps: seq<string>, i: nat): (r: string)
    requires i <= |s|
    requires SeparatorsOk(seps)
    ensures |r| <= |s| - i
    ensures (forall j | i <= j < |s| :: FirstSep(s, seps, j).None?) ==> r == s[i..]
    decreases |s| - i
  {
    if i == |s| then []
    else match FirstSep(s, seps, i)
      case Some(sep) =>
        assert sep != [] by {
          var k :| 0 <= k < |seps| && seps[k] == sep;
        }
        SubFrom(s, seps, i + |sep|)
      case None =>
        assert s[i..] == [s[i]] + s[i + 1..];
        [s[i]] + SubFrom(s, seps, i + 1)
  }

  /** `re_item_sep.sub('', s)`: every separator match removed. */
  function StripItemSeps(s: string, seps: seq<string>): (r: string)
    requires SeparatorsOk(seps)
    ensures |r| <= |s|
  {
    SubFrom(s, seps, 0)
  }

  /** A text the item separator does not split comes through the removal of
      separators unchanged. */
  lemma StripItemSepsUnsplit(s: string, seps: seq<string>)
    requires SeparatorsOk(seps)
    requires SplitItem(s, seps).None?
    ensures StripItemSeps(s, seps) == s
  {
    assert s[0..] == s;
  }

  // ---------------------------------------------------------------------
  // The date-to-date separator: \s(to|until|\-|\|)\s
  // ---------------------------------------------------------------------

  /** Word `w` between two whitespace characters, the first at `i`. */
  predicate DateSepMatch(s: string, w: string, i: int) {
    0 <= i && i + |w| + 2 <= |s| && IsSpace(s[i]) && s[i + 1..i + 1 + |w|] == w
    && IsSpace(s[i + 1 + |w|])
  }

  function FirstWord(s: string, words: seq<string>, i: int): (r: Option<string>)
    ensures r.Some? ==> r.value in words && DateSepMatch(s, r.value, i)
    ensures r.None? ==> forall w | w in words :: !DateSepMatch(s, w, i)
  {
    if words == [] then None
    else if DateSepMatch(s, words[0], i) then Some(words[0])
    else FirstWord(s, words[1..], i)
  }

  /** The separator word matching at `i`; at 0 this is `RE_DATE_TO_DATE_SEP.match`. */
  function DateSepAt(s: string, i: int): (r: Option<string>)
    ensures r.Some? ==> r.value in DateToDateWords && DateSepMatch(s, r.value, i)
    ensures r.None? ==> forall w | w in DateToDateWords :: !DateSepMatch(s, w, i)
  {
    FirstWord(s, DateToDateWords, i)
  }

  /** Where the date separator's leftmost match at or after `i` starts. */
  function FirstDateSepFrom(s: string, i: nat): (r: Option<nat>)
    requires i <= |s|
    ensures r.Some? ==> (i <= r.value <= |s| && DateSepAt(s, r.value).Some?
      && forall j | i <= j < r.value :: DateSepAt(s, j).None?)
    ensures r.None? ==> forall j | i <= j <= |s| :: DateSepAt(s, j).None?
    decreases |s| - i
  {
    if DateSepAt(s, i).Some? then Some(i)
    else if i == |s| then None
    else FirstDateSepFrom(s, i + 1)
  }

  /** `RE_DATE_TO_DATE_SEP.split(s, 1)`: the text before the leftmost
      separator, its word, and the text after the whitespace that closes it. */
  function SplitDates(s: string): (r: Option<Cut>)
    ensures r.Some? ==>
      && DateSepAt(s, |r.value.before|) == Some(r.value.sep)
      && s[..|r.value.before|] == r.value.before
      && r.value.after == s[|r.value.before| + |r.value.sep| + 2..]
      && forall j | 0 <= j < |r.value.before| :: DateSepAt(s, j).None?
    ensures r.None? ==> forall j | 0 <= j <= |s| :: DateSepAt(s, j).None?
  {
    match FirstDateSepFrom(s, 0)
    case None => None
    case Some(i) =>
      var w := DateSepAt(s, i).value;
      Some(Cut(s[..i], w, s[i + |w| + 2..]))
  }

  /** The check `parse_datetimes_easy_both` runs on the split, as written: the
      matched word must be listed in the separator list, which holds the
      escaped forms `\-` and `\|`. */
  function SeparatorCheckAsWritten(c: Cut): (r: Result<string, Raised>)
    ensures r.Success? <==> Strip(c.before) == [] && ListedAsWritten(Strip(c.sep))
    ensures r.Success? ==> r.value == c.after
  {
    if Strip(c.before) != [] then Failure(AssertionRaised("parse_datetimes_easy_both"))
    else if !ListedAsWritten(Strip(c.sep)) then Failure(AssertionRaised("parse_datetimes_easy_both"))
    else Success(c.after)
  }

  /** Membership in DATE_TO_DATE_SEPARATORS as the list is written, with the
      regular-expression escapes `\-` and `\|` kept. */
  predicate ListedAsWritten(w: string) {
    w == "to" || w == "until" || w == "\\-" || w == "\\|"
  }

  /** The separator words carry no whitespace, so stripping keeps them. */
  lemma DateWordsStripped()
    ensures Strip("to") == "to" && Strip("until") == "until"
    ensures Strip("-") == "-" && Strip("|") == "|"
  {
    ToStripped();
    UntilStripped();
    HyphenStripped();
    PipeStripped();
  }

  lemma ToStripped() ensures Strip("to") == "to" {
    var w := "to";
    assert w[0] == 't' && w[1] == 'o';
    StripTrimmed(w);
  }

  lemma UntilStripped() ensures Strip("until") == "until" {
    var w := "until";
    assert w[0] == 'u' && w[4] == 'l';
    StripTrimmed(w);
  }

  lemma HyphenStripped() ensures Strip("-") == "-" {
    var w := "-";
    assert w[0] == '-';
    StripTrimmed(w);
  }

  lemma PipeStripped() ensures Strip("|") == "|" {
    var w := "|";
    assert w[0] == '|';
    StripTrimmed(w);
  }

  /** A range written with ' - ' trips that check although the regular
      expression matched it: whatever follows the separator, the split cuts
      at the start and the as-written check refuses the word '-'. */
  lemma HyphenRangeFailsCheckAsWritten(rest: string)
    ensures var c := SplitDates(" - " + rest);
      c == Some(Cut("", "-", rest)) && SeparatorCheckAsWritten(c.value).Failure?
  {
    HyphenSplit(rest);
    HyphenRefused(rest);
  }

  /** The split of ' - ' + rest cuts at the start. */
  lemma HyphenSplit(rest: string)
    ensures SplitDates(" - " + rest) == Some(Cut("", "-", rest))
  {
    var s := " - " + rest;
    HyphenAtStart(rest);
    assert FirstDateSepFrom(s, 0) == Some(0);
    assert s[..0] == "" && s[3..] == rest;
  }

  /** The as-written check refuses the word '-'. */
  lemma HyphenRefused(rest: string)
    ensures SeparatorCheckAsWritten(Cut("", "-", rest)).Failure?
  {
    HyphenUnlisted();
    HyphenStripped();
  }

  /** ' - ' at the head of a text is the separator '-'. */
  lemma HyphenAtStart(rest: string)
    ensures DateSepAt(" - " + rest, 0) == Some("-")
  {
    var s := " - " + rest;
    var words := DateToDateWords;
    assert s[0] == ' ' && s[1] == '-' && s[2] == ' ';
    assert words[0] == "to" && words[1..][0] == "until" && words[1..][1..][0] == "-";
    assert !DateSepMatch(s, words[0], 0);
    assert !DateSepMatch(s, words[1..][0], 0);
    assert DateSepMatch(s, words[1..][1..][0], 0);
  }

  /** The bare word '-' is not among the list's entries. */
  lemma HyphenUnlisted()
    ensures !ListedAsWritten("-")
  {
    assert |"\\-"| == 2 && |"\\|"| == 2 && |"-"| == 1;
  }

  /** The check as intended: the word is one of the separators the regular
      expression is built from. */
  function SeparatorCheck(c: Cut): (r: Result<string, Raised>)
    ensures r.Success? ==> r.value == c.after
  {
    if Strip(c.before) != [] then Failure(AssertionRaised("parse_datetimes_easy_both"))
    else if Strip(c.sep) !in DateToDateWords then Failure(AssertionRaised("parse_datetimes_easy_both"))
    else Success(c.after)
  }

  /** Whenever the separator matches at the start of the text, the split cuts
      there and the intended check passes, so that `assert` never fires. */
  lemma SeparatorCheckPasses(s: string)
    requires DateSepAt(s, 0).Some?
    ensures SplitDates(s).Some?
    ensures SeparatorCheck(SplitDates(s).value) == Success(s[|DateSepAt(s, 0).value| + 2..])
  {
    var w := DateSepAt(s, 0).value;
    DateWordStripped(w);
    var c := SplitDates(s).value;
    assert |c.before| == 0;
    assert c.sep == w;
  }

  /** Stripping a separator word gives a listed word back. */
  lemma DateWordStripped(w: string)
    requires w in DateToDateWords
    ensures Strip(w) == w
  {
    DateWordsStripped();
    assert w == "to" || w == "until" || w == "-" || w == "|";
  }

  // ---------------------------------------------------------------------
  // Tag splitting: \s+[stamps](?=\S) and (?<!\S)[stamps](?=\S)
  // ---------------------------------------------------------------------

  /** The two tag patterns: RE_SPLIT_CAT_AND_TAGS, a marker after a run of
      whitespace, and RE_SPLIT_TAGS_AND_TAGS, a marker starting a word. */
  datatype TagPattern = AfterSpace | WordStart

  /** The end of the run of whitespace starting at `i`. */
  function SpaceRun(s: string, i: nat): (j: nat)
    requires i <= |s|
    ensures i <= j <= |s| && AllSpace(s[i..j]) && (j == |s| || !IsSpace(s[j]))
    decreases |s| - i
  {
    if i == |s| || !IsSpace(s[i]) then i
    else
      var j := SpaceRun(s, i + 1);
      assert s[i..j] == [s[i]] + s[i + 1..j];
      j
  }

  /** The length of the match of pattern `p` at `i`, 0 for none. The marker
      must be followed by a character that is not whitespace. */
  function TagMatchLen(p: TagPattern, stamps: string, s: string, i: nat): (n: nat)
    requires i <= |s|
    ensures n > 0 ==> i + n < |s| && s[i + n - 1] in stamps && !IsSpace(s[i + n])
  {
    match p
    case AfterSpace =>
      if i < |s| && IsSpace(s[i]) then
        var j := SpaceRun(s, i);
        if j + 1 < |s| && s[j] in stamps && !IsSpace(s[j + 1]) then j - i + 1 else 0
      else 0
    case WordStart =>
      if i + 1 < |s| && (i == 0 || IsSpace(s[i - 1])) && s[i] in stamps && !IsSpace(s[i + 1]) then 1
      else 0
  }

  /** Where `p.search` finds its leftmost match at or after `i`. */
  function FirstTagFrom(p: TagPattern, stamps: string, s: string, i: nat): (r: Option<nat>)
    requires i <= |s|
    ensures r.Some? ==> (i <= r.value < |s| && TagMatchLen(p, stamps, s, r.value) > 0
      && forall j | i <= j < r.value :: TagMatchLen(p, stamps, s, j) == 0)
    ensures r.None? ==> forall j | i <= j <= |s| :: TagMatchLen(p, stamps, s, j) == 0
    decreases |s| - i
  {
    if i == |s| then None
    else if TagMatchLen(p, stamps, s, i) > 0 then Some(i)
    else FirstTagFrom(p, stamps, s, i + 1)
  }

  function SplitTagsFrom(p: TagPattern, stamps: string, s: string, start: nat, i: nat): (r: seq<string>)
    requires start <= i <= |s|
    ensures |r| >= 1
    ensures FirstTagFrom(p, stamps, s, i).None? ==> r == [s[start..]]
    ensures FirstTagFrom(p, stamps, s, i).Some? ==> |r| > 1 && r[0] == s[start..FirstTagFrom(p, stamps, s, i).value]
    decreases |s| - i
  {
    if i == |s| then [s[start..]]
    else
      var n := TagMatchLen(p, stamps, s, i);
      if n > 0 then [s[start..i]] + SplitTagsFrom(p, stamps, s, i + n, i + n)
      else SplitTagsFrom(p, stamps, s, start, i + 1)
  }

  /** `p.split(s)`: the pieces between the matches. One piece exactly when
      `p.search(s)` finds nothing, and then it is the whole text; otherwise
      the first piece is the text before the leftmost match. */
  function SplitTags(p: TagPattern, stamps: string, s: string): (r: seq<string>)
    ensures |r| >= 1
    ensures |r| == 1 <==> FirstTagFrom(p, stamps, s, 0).None?
    ensures |r| == 1 ==> r[0] == s
    ensures |r| > 1 ==> r[0] == s[..FirstTagFrom(p, stamps, s, 0).value]
  {
    SplitTagsFrom(p, stamps, s, 0, 0)
  }

  /** `consume_tags`' list comprehension: every tag stripped. */
  function StripAll(tags: seq<string>): (r: seq<string>)
    ensures |r| == |tags|
    ensures forall k | 0 <= k < |r| :: r[k] == Strip(tags[k])
  {
    if tags == [] then [] else [Strip(tags[0])] + StripAll(tags[1..])
  }

  /** Every consumed tag is free of surrounding whitespace and no longer
      than the piece it came from. */
  lemma StripAllTrimmed(tags: seq<string>)
    ensures forall k | 0 <= k < |tags| :: Trimmed(StripAll(tags)[k]) && |StripAll(tags)[k]| <= |tags[k]|
  {
    forall k | 0 <= k < |tags| ensures Trimmed(StripAll(tags)[k]) {
      StripTrims(tags[k]);
    }
  }

  /** Stripping the tags a second time changes nothing. */
  lemma {:induction false} StripAllIdempotent(tags: seq<string>)
    ensures StripAll(StripAll(tags)) == StripAll(tags)
  {
    if tags != [] {
      var st := StripAll(tags);
      StripIdempotent(tags[0]);
      StripAllIdempotent(tags[1..]);
      assert st[1..] == StripAll(tags[1..]);
    }
  }

  // ---------------------------------------------------------------------
  // Reading times: delegated to the caller
  // ---------------------------------------------------------------------

  /** What HamsterTimeSpec.discern recognised: 'now', 'relative',
      'clock_time' or 'datetime'. */
  datatype TimeKind = NowTime | RelativeTime | ClockTime | IsoDatetime

  /** A time discern found at the head of a text: its text (for 'now', the
      relative '-0'), its kind, and the text after it. */
  datatype Discerned = Discerned(dt: string, kind: TimeKind, rest: string)

  /** The three readers the parser hands times to: HamsterTimeSpec.discern,
      iso8601.parse_date and dateparser.parse (the local timezone setting is
      part of the last two). None stands for "no match" or a ParseError. */
  datatype TimeOracle = TimeOracle(
    discern: string -> Option<Discerned>,
    iso8601: string -> Option<DateTime>,
    friendly: string -> Option<DateTime>)

  /** `hydrate_datetime_iso8601`: a datetime, or None; when `must`, an
      unreadable text raises ParserInvalidDatetimeException instead. */
  function HydrateIso8601(o: TimeOracle, part: string, must: bool): (r: Result<Loose, Raised>)
    ensures r.Failure? <==> must && o.iso8601(part).None?
    ensures r.Failure? ==> r.error == ParserRaised(InvalidDatetime(part))
    ensures r.Success? ==> (r.value == LNone <==> o.iso8601(part).None?) && (r.value == LNone || r.value.LDateTime?)
  {
    match o.iso8601(part)
    case Some(t) => Success(LDateTime(t))
    case None => if must then Failure(ParserRaised(InvalidDatetime(part))) else Success(LNone)
  }

  /** `hydrate_datetime_friendly`, the same contract over dateparser (the
      `skip_dateparser` branch is never taken: nothing sets that flag). */
  function HydrateFriendly(o: TimeOracle, part: string, must: bool): (r: Result<Loose, Raised>)
    ensures r.Failure? <==> must && o.friendly(part).None?
    ensures r.Failure? ==> r.error == ParserRaised(InvalidDatetime(part))
    ensures r.Success? ==> (r.value == LNone <==> o.friendly(part).None?) && (r.value == LNone || r.value.LDateTime?)
  {
    match o.friendly(part)
    case Some(t) => Success(LDateTime(t))
    case None => if must then Failure(ParserRaised(InvalidDatetime(part))) else Success(LNone)
  }

  /** Python truthiness of an optional text. */
  predicate OptTruthy(t: Option<string>) {
    t.Some? && t.value != []
  }

  /** `hydrate_datetime_either`: a time already read is kept; otherwise a
      non-empty raw text, with item separators removed, is read as ISO 8601
      first and as a friendly time second, None when neither reads it. */
  function HydrateEither(o: TimeOracle, seps: seq<string>, value: Loose, raw: Option<string>): (r: Loose)
    requires SeparatorsOk(seps)
    ensures value.Truthy() || !OptTruthy(raw) ==> r == value
    ensures !value.Truthy() && OptTruthy(raw) ==>
      var text := StripItemSeps(raw.value, seps);
      && (o.iso8601(text).Some? ==> r == LDateTime(o.iso8601(text).value))
      && (o.iso8601(text).None? && o.friendly(text).Some? ==> r == LDateTime(o.friendly(text).value))
      && (o.iso8601(text).None? && o.friendly(text).None? ==> r == LNone)
  {
    if !value.Truthy() && OptTruthy(raw) then
      var text := StripItemSeps(raw.value, seps);
      var iso := HydrateIso8601(o, text, false).value;
      if iso.Truthy() then iso else HydrateFriendly(o, text, false).value
    else value
  }

  // ---------------------------------------------------------------------
  // The parser's state as a value
  // ---------------------------------------------------------------------

  /** `datetime_attr`: which of the two times a step reads. */
  datatype Which = First | Second

  /** One time as the parser holds it: `datetimeN`, `raw_datetimeN` and
      `type_datetimeN`. */
  datatype Slot = Slot(value: Loose, raw: Option<string>, kind: Option<TimeKind>)

  const NoSlot: Slot := Slot(LNone, None, None)

  /** The result fields of a Parser. */
  datatype Dissected = Dissected(
    first: Slot, second: Slot,
    activity: Option<string>, category: Option<string>,
    tags: Option<seq<string>>, description: Option<string>)

  /** `reset_result`: every result field None. */
  const Blank: Dissected := Dissected(NoSlot, NoSlot, None, None, None, None)

  /** The rule fields of a Parser; `separators` and `hashStamps` stand for the
      patterns compiled from them. */
  datatype Rules = Rules(
    raw: seq<string>, flat: string, rest: seq<string>, timeHint: string,
    separators: seq<string>, hashStamps: string, lenient: bool)

  /** `reset_rules`. */
  const Unset: Rules := Rules([], [], [], [], [], [], false)

  predicate Ready(rules: Rules) {
    SeparatorsOk(rules.separators) && StampsOk(rules.hashStamps)
  }

  /** A step's effect: the result fields afterwards, and what it returned or
      raised. */
  datatype Step<T> = Step(state: Dissected, outcome: Result<T, Raised>)

  function Raise<T>(d: Dissected, e: Raised): Step<T> {
    Step(d, Failure(e))
  }

  /** `setattr(self, datetime_attr, dt)` with its `type_` companion. */
  function Put(d: Dissected, which: Which, value: Loose, kind: TimeKind): Dissected {
    match which
    case First => d.(first := d.first.(value := value, kind := Some(kind)))
    case Second => d.(second := d.second.(value := value, kind := Some(kind)))
  }

  predicate RawsUnset(d: Dissected) {
    d.first.raw.None? && d.second.raw.None?
  }

  const VerifyNone: string := "verify_none"
  const VerifyStart: string := "verify_start"
  const VerifyEnd: string := "verify_end"
  const VerifyBoth: string := "verify_both"

  /** The hints that ask for at least one time. */
  predicate TimedHint(h: string) {
    h == VerifyStart || h == VerifyEnd || h == VerifyBoth
  }

  /** The four time hints the parser knows. */
  predicate KnownHint(h: string) {
    h == VerifyNone || TimedHint(h)
  }

  // ---------------------------------------------------------------------
  // setup_rules
  // ---------------------------------------------------------------------

  /** The defaults in force are well formed. */
  lemma DefaultsOk()
    ensures SeparatorsOk(FactMetadataSeparators) && StampsOk(DefaultHashStamps)
  {
    assert DefaultHashStamps[0] == '#' && DefaultHashStamps[1] == '@';
  }

  /** `setup_rules`: an empty factoid becomes ('',); `flat` is the tokens
      joined with spaces; empty separators and hash stamps fall back to the
      defaults. */
  function RulesFor(factoid: seq<string>, timeHint: string, separators: seq<string>, hashStamps: string, lenient: bool): (r: Rules)
    requires forall k | 0 <= k < |separators| :: separators[k] != []
    requires StampsOk(hashStamps)
    ensures Ready(r)
    ensures r.raw == r.rest && r.raw != [] && (factoid != [] ==> r.raw == factoid)
    ensures factoid == [] ==> r.flat == []
    ensures r.separators == (if separators == [] then FactMetadataSeparators else separators)
    ensures r.hashStamps == (if hashStamps == [] then DefaultHashStamps else hashStamps)
    ensures r.timeHint == timeHint && r.lenient == lenient
  {
    DefaultsOk();
    var tokens := if factoid == [] then [""] else factoid;
    Rules(tokens, Join(tokens, " "), tokens, timeHint,
          if separators == [] then FactMetadataSeparators else separators,
          if hashStamps == [] then DefaultHashStamps else hashStamps,
          lenient)
  }

  /** `flat` loses nothing when no token holds a space: splitting it on
      spaces gives the tokens back. */
  lemma FlatSplitsBack(factoid: seq<string>, timeHint: string, separators: seq<string>, hashStamps: string, lenient: bool)
    requires forall k | 0 <= k < |separators| :: separators[k] != []
    requires StampsOk(hashStamps)
    requires forall k | 0 <= k < |factoid| :: ' ' !in factoid[k]
    ensures var r := RulesFor(factoid, timeHint, separators, hashStamps, lenient);
      SplitOn(r.flat, ' ') == r.raw
  {
    var r := RulesFor(factoid, timeHint, separators, hashStamps, lenient);
    if factoid == [] {
      assert r.raw == [""];
      assert SplitOn("", ' ') == [""];
    } else {
      SplitOnJoin(factoid, ' ');
    }
  }

  // ---------------------------------------------------------------------
  // The steps of `parse`, as functions of the result fields
  // ---------------------------------------------------------------------

  /** `must_parse_datetime_from_rest`: discern a time at the head of the text
      and store it (an ISO 8601 text must read, or
      ParserInvalidDatetimeException); the rest of the text is returned.
      Without a time: ParserMissingDatetimeOneException for the first,
      ParserMissingDatetimeTwoException for the second unless it may be
      missing, in which case the text comes back whole. */
  function FromRestStep(d: Dissected, o: TimeOracle, datetimeRest: string, which: Which, okIfMissing: bool): (r: Step<string>)
    requires okIfMissing ==> which == Second
    ensures o.discern(datetimeRest).None? ==> r.state == d
    ensures o.discern(datetimeRest).None? ==>
      (r.outcome.Success? <==> okIfMissing) && (okIfMissing ==> r.outcome.value == datetimeRest)
    ensures o.discern(datetimeRest).None? && which == First ==> r.outcome == Failure(ParserRaised(MissingDatetimeOne))
    ensures o.discern(datetimeRest).None? && which == Second && !okIfMissing ==>
      r.outcome == Failure(ParserRaised(MissingDatetimeTwo))
    ensures o.discern(datetimeRest).Some? && r.outcome.Success? ==> r.outcome.value == o.discern(datetimeRest).value.rest
    ensures r.outcome.Failure? && o.discern(datetimeRest).Some? ==>
      o.discern(datetimeRest).value.kind == IsoDatetime && r.state == d
      && r.outcome.error == ParserRaised(InvalidDatetime(o.discern(datetimeRest).value.dt))
  {
    match o.discern(datetimeRest)
    case Some(found) =>
      if found.kind == IsoDatetime then
        match HydrateIso8601(o, found.dt, true)
        case Failure(e) => Raise(d, e)
        case Success(t) => Step(Put(d, which, t, found.kind), Success(found.rest))
      else Step(Put(d, which, LText(found.dt), found.kind), Success(found.rest))
    case None =>
      if which == First then Raise(d, ParserRaised(MissingDatetimeOne))
      else if !okIfMissing then Raise(d, ParserRaised(MissingDatetimeTwo))
      else Step(d, Success(datetimeRest))
  }

  /** `parse_datetimes_easy_both`: the first time, then, when the text goes on
      with a date separator, the second (which may be missing only when two
      are not strictly required); two required and no separator raises
      ParserMissingDatetimeTwoException. */
  function EasyBothStep(d: Dissected, o: TimeOracle, datetimeRest: string, strictlyTwo: bool): (r: Step<string>)
    ensures FromRestStep(d, o, datetimeRest, First, false).outcome.Failure? ==>
      r == FromRestStep(d, o, datetimeRest, First, false)
    ensures var s1 := FromRestStep(d, o, datetimeRest, First, false);
      s1.outcome.Success? && DateSepAt(s1.outcome.value, 0).None? ==>
        r == (if strictlyTwo then Raise(s1.state, ParserRaised(MissingDatetimeTwo)) else s1)
  {
    var s1 := FromRestStep(d, o, datetimeRest, First, false);
    if s1.outcome.Failure? then s1
    else
      var rest := s1.outcome.value;
      if DateSepAt(rest, 0).Some? then
        match SeparatorCheck(SplitDates(rest).value)
        case Failure(e) => Raise(s1.state, e)
        case Success(after) => FromRestStep(s1.state, o, after, Second, strictlyTwo)
      else if strictlyTwo then Raise(s1.state, ParserRaised(MissingDatetimeTwo))
      else s1
  }

  /** `parse_datetimes_easy`: which times to read is set by the time hint;
      any hint but the four known ones fails its `assert`. */
  function EasyStep(d: Dissected, o: TimeOracle, rules: Rules): (r: Step<string>)
    ensures rules.timeHint == VerifyNone ==> r == Step(d, Success(rules.flat))
    ensures !KnownHint(rules.timeHint) ==>
      r == Raise(d, AssertionRaised("parse_datetimes_easy"))
  {
    if rules.timeHint == VerifyStart then EasyBothStep(d, o, rules.flat, false)
    else if rules.timeHint == VerifyEnd then FromRestStep(d, o, rules.flat, Second, false)
    else if rules.timeHint == VerifyBoth then EasyBothStep(d, o, rules.flat, true)
    else if rules.timeHint == VerifyNone then Step(d, Success(rules.flat))
    else Raise(d, AssertionRaised("parse_datetimes_easy"))
  }

  /** `lstrip_activity`: with an '@', the activity is the text before the
      first one and the category is expected in the text after it; without
      one, nothing changes and no category is expected. */
  function LstripActivityStep(d: Dissected, actAndRest: string): (r: (Dissected, string, bool))
    ensures r.2 <==> ActegorySep in actAndRest
    ensures r.2 ==>
      && r.0 == d.(activity := r.0.activity) && r.0.activity.Some?
      && actAndRest == r.0.activity.value + [ActegorySep] + r.1 && ActegorySep !in r.0.activity.value
    ensures !r.2 ==> r.0 == d && r.1 == actAndRest
  {
    var idx := MustIndexActegorySep(actAndRest, false).value;
    if idx >= 0 then
      assert actAndRest == actAndRest[..idx] + [ActegorySep] + actAndRest[idx + 1..];
      (d.(activity := Some(actAndRest[..idx])), actAndRest[idx + 1..], true)
    else (d, actAndRest, false)
  }

  /** The text before the datetimes' '@' split at an item separator. */
  datatype Delimited = Delimited(datetimesAndAct: string, datetimes: Option<string>, restAfterAct: string)

  /** `lstrip_datetimes_delimited`: the factoid must hold an '@'
      (ParserMissingSeparatorActivity otherwise); the text before it splits
      at the first item separator into datetimes and activity. */
  function DelimitedStep(d: Dissected, rules: Rules): (r: Step<Delimited>)
    ensures r.state.first == d.first && r.state.second == d.second
    ensures r.outcome.Failure? <==> ActegorySep !in rules.flat
    ensures r.outcome.Success? ==>
      rules.flat == r.outcome.value.datetimesAndAct + [ActegorySep] + r.outcome.value.restAfterAct
      && ActegorySep !in r.outcome.value.datetimesAndAct
  {
    var idx := MustIndexActegorySep(rules.flat, true);
    if idx.Failure? then Raise(d, idx.error)
    else
      var i := idx.value;
      var dta := rules.flat[..i];
      var raa := rules.flat[i + 1..];
      assert rules.flat == dta + [ActegorySep] + raa;
      match SplitItem(dta, rules.separators)
      case Some(c) => Step(d.(activity := Some(c.after)), Success(Delimited(dta, Some(c.before), raa)))
      case None => Step(d, Success(Delimited(dta, None, raa)))
  }

  /** `must_parse_datetimes_known`: the delimited datetimes become raw text,
      split at a date separator when two are expected (two strictly required
      and none found: ParserMissingDatetimeTwoException); a lone time is the
      start for 'verify_start' and the end for 'verify_end', and any other hint
      fails its `assert`. */
  function KnownStep(d: Dissected, hint: string, datetimes: string, expecting: int, strictlyTwo: bool): (r: Step<()>)
    requires expecting == 1 || expecting == 2
    requires RawsUnset(d)
    ensures r.outcome == Failure(ParserRaised(MissingDatetimeTwo)) <==>
      expecting == 2 && strictlyTwo && SplitDates(datetimes).None?
    ensures r.outcome.Success? ==> r.state.activity == d.activity
    ensures r.outcome.Success? && hint == VerifyStart ==> r.state.first.raw.Some?
  {
    var split := if expecting == 2 then SplitDates(datetimes) else None;
    if expecting == 2 && split.None? && strictlyTwo then Raise(d, ParserRaised(MissingDatetimeTwo))
    else
      var d1 := if split.Some? then d.(first := d.first.(raw := Some(split.value.before)), second := d.second.(raw := Some(split.value.after))) else d;
      if expecting == 1 || !OptTruthy(d1.first.raw) then
        if hint == VerifyStart then
          Step(d1.(first := d1.first.(raw := Some(datetimes)), second := d1.second.(value := LText([]))), Success(()))
        else if hint != VerifyEnd || strictlyTwo then Raise(d1, AssertionRaised("must_parse_datetimes_known"))
        else Step(d1.(first := d1.first.(value := LText([])), second := d1.second.(raw := Some(datetimes))), Success(()))
      else Step(d1, Success(()))
  }

  /** `must_parse_datetimes_magic`: undelimited datetimes; when two are
      expected and a date separator splits the text, the first is raw text and
      the second is discerned at the head of the rest; otherwise one time is
      discerned at the head of the text, per the hint. What follows the time is
      the activity. */
  function MagicStep(d: Dissected, o: TimeOracle, hint: string, datetimesAndAct: string, expecting: int, strictlyTwo: bool): (r: Step<()>)
    requires expecting == 1 || expecting == 2
    requires RawsUnset(d)
    ensures expecting == 2 && strictlyTwo && SplitDates(datetimesAndAct).None? ==>
      r == Raise(d, ParserRaised(MissingDatetimeTwo))
    ensures r.outcome.Success? ==> r.state.activity.Some?
  {
    var split := if expecting == 2 then SplitDates(datetimesAndAct) else None;
    if expecting == 2 && split.None? && strictlyTwo then Raise(d, ParserRaised(MissingDatetimeTwo))
    else
      var d1 := if split.Some? then d.(first := d.first.(raw := Some(split.value.before))) else d;
      var target: Result<(string, Which), Raised> :=
        if expecting == 1 || !OptTruthy(d1.first.raw) then
          if hint == VerifyStart then Success((datetimesAndAct, First))
          else if hint == VerifyEnd then Success((datetimesAndAct, Second))
          else Failure(AssertionRaised("must_parse_datetimes_magic"))
        else Success((split.value.after, Second));
      if target.Failure? then Raise(d1, target.error)
      else
        var s := FromRestStep(d1, o, target.value.0, target.value.1, false);
        if s.outcome.Failure? then Raise(s.state, s.outcome.error)
        else Step(s.state.(activity := Some(s.outcome.value)), Success(()))
  }

  /** `lstrip_datetimes`: the delimited or the undelimited reading, then the
      text after the '@'. */
  function LstripDatetimesStep(d: Dissected, o: TimeOracle, rules: Rules, expecting: int, strictlyTwo: bool): (r: Step<string>)
    requires expecting == 1 || expecting == 2
    requires RawsUnset(d)
    ensures ActegorySep !in rules.flat ==> r == Raise(d, ParserRaised(MissingSeparatorActivity))
    ensures r.outcome.Success? ==> r.outcome.value == DelimitedStep(d, rules).outcome.value.restAfterAct
  {
    var s := DelimitedStep(d, rules);
    if s.outcome.Failure? then Raise(s.state, s.outcome.error)
    else
      var del := s.outcome.value;
      var k :=
        if OptTruthy(del.datetimes) then KnownStep(s.state, rules.timeHint, del.datetimes.value, expecting, strictlyTwo)
        else MagicStep(s.state, o, rules.timeHint, del.datetimesAndAct, expecting, strictlyTwo);
      if k.outcome.Failure? then Raise(k.state, k.outcome.error)
      else Step(k.state, Success(del.restAfterAct))
  }

  /** `parse_datetimes_hard`: per hint, the datetimes before the '@' or, for
      'verify_none', just the activity; an unknown hint raises Exception. */
  function HardStep(d: Dissected, o: TimeOracle, rules: Rules): (r: Step<(string, bool)>)
    requires RawsUnset(d)
    ensures !KnownHint(rules.timeHint) ==> r == Raise(d, BadTimeHint)
    ensures TimedHint(rules.timeHint) && r.outcome.Success? ==> r.outcome.value.1
    ensures TimedHint(rules.timeHint) && ActegorySep !in rules.flat ==>
      r == Raise(d, ParserRaised(MissingSeparatorActivity))
  {
    if TimedHint(rules.timeHint) then
      var s :=
        if rules.timeHint == VerifyStart then LstripDatetimesStep(d, o, rules, 2, false)
        else if rules.timeHint == VerifyEnd then LstripDatetimesStep(d, o, rules, 1, false)
        else LstripDatetimesStep(d, o, rules, 2, true);
      if s.outcome.Failure? then Raise(s.state, s.outcome.error)
      else Step(s.state, Success((s.outcome.value, true)))
    else if rules.timeHint == VerifyNone then
      var (d1, rest, hasCat) := LstripActivityStep(d, rules.flat);
      Step(d1, Success((rest, hasCat)))
    else Raise(d, BadTimeHint)
  }

  /** `skip_tags_no_sep`: without an item separator the whole remainder is
      the description. */
  function SkipTagsStep(d: Dissected, part: string): (r: Dissected)
    ensures r.description == Some(part) && r == d.(description := r.description)
  {
    d.(description := Some(part))
  }

  /** `parse_cat_and_remainder`: the text after the first item separator is
      the description; before it, the category runs up to the first marker
      that follows whitespace, and each later piece is a stripped tag. */
  function CatStep(d: Dissected, catAndRemainder: string, seps: seq<string>, stamps: string): (r: Dissected)
    ensures SplitItem(catAndRemainder, seps).None? ==> r == SkipTagsStep(d, catAndRemainder)
    ensures r.first == d.first && r.second == d.second && r.activity == d.activity
    ensures SplitItem(catAndRemainder, seps).Some? ==>
      var c := SplitItem(catAndRemainder, seps).value;
      var t := FirstTagFrom(AfterSpace, stamps, c.before, 0);
      && r.description == Some(c.after)
      && (t.None? ==> r.category == Some(c.before) && r.tags == d.tags)
      && (t.Some? ==> r.category == Some(c.before[..t.value]) && r.tags.Some?)
  {
    match SplitItem(catAndRemainder, seps)
    case None => SkipTagsStep(d, catAndRemainder)
    case Some(c) =>
      var d1 := d.(description := Some(c.after));
      if FirstTagFrom(AfterSpace, stamps, c.before, 0).Some? then
        var pieces := SplitTags(AfterSpace, stamps, c.before);
        d1.(tags := Some(StripAll(pieces[1..])), category := Some(pieces[0]))
      else d1.(category := Some(c.before))
  }

  /** `parse_tags_and_remainder`, for a factoid without an '@': before the
      first item separator, text that opens with a tag gives the tags (the
      empty piece before the first marker included); text without a tag joins
      the description; text followed by a tag reaches `assert False`. */
  function TagsStep(d: Dissected, tagsAndRemainder: string, seps: seq<string>, stamps: string): (r: Step<()>)
    ensures SplitItem(tagsAndRemainder, seps).None? ==> r == Step(SkipTagsStep(d, tagsAndRemainder), Success(()))
    ensures r.state.first == d.first && r.state.second == d.second && r.state.activity == d.activity
    ensures r.state.category == d.category
    ensures SplitItem(tagsAndRemainder, seps).Some? ==>
      var c := SplitItem(tagsAndRemainder, seps).value;
      var ts := SplitTags(WordStart, stamps, Strip(c.before));
      && (r.outcome.Failure? <==> Strip(ts[0]) != [] && |ts| > 1)
      && (r.outcome.Success? && Strip(ts[0]) == [] ==>
            r.state.tags.Some? && r.state.description == Some(c.sep + c.after))
      && (r.outcome.Success? && Strip(ts[0]) != [] ==>
            r.state.tags == d.tags && r.state.description == Some(Strip(c.before) + c.sep + c.after))
  {
    match SplitItem(tagsAndRemainder, seps)
    case None => Step(SkipTagsStep(d, tagsAndRemainder), Success(()))
    case Some(c) =>
      var ts := SplitTags(WordStart, stamps, Strip(c.before));
      if Strip(ts[0]) != [] then
        if |ts| == 1 then Step(d.(description := Some(ts[0] + c.sep + c.after)), Success(()))
        else Step(d.(description := Some([])), Failure(AssertionRaised("parse_tags_and_remainder")))
      else Step(d.(tags := Some(StripAll(ts)), description := Some(c.sep + c.after)), Success(()))
  }

  /** `hydrate_datetimes`: both times through `hydrate_datetime_either`. */
  function HydrateStep(d: Dissected, o: TimeOracle, seps: seq<string>): (r: Dissected)
    requires SeparatorsOk(seps)
    ensures r.first.raw == d.first.raw && r.second.raw == d.second.raw
    ensures r.first.kind == d.first.kind && r.second.kind == d.second.kind
    ensures r.activity == d.activity && r.category == d.category
    ensures r.tags == d.tags && r.description == d.description
    ensures d.first.value.Truthy() ==> r.first.value == d.first.value
    ensures d.second.value.Truthy() ==> r.second.value == d.second.value
  {
    d.(first := d.first.(value := HydrateEither(o, seps, d.first.value, d.first.raw)),
       second := d.second.(value := HydrateEither(o, seps, d.second.value, d.second.raw)))
  }

  /** `parse`: the easy ISO 8601 reading first; when it raises a
      ParserException the result is reset and the hard reading runs. Then the
      category and tags, the times hydrated, and a missing activity raised. */
  function ParseStep(rules: Rules, o: TimeOracle): (r: Step<()>)
    requires Ready(rules)
    ensures r.outcome.Success? ==> OptTruthy(r.state.activity)
    ensures !KnownHint(rules.timeHint) ==>
      r == Raise(Blank, AssertionRaised("parse_datetimes_easy"))
  {
    var e := EasyStep(Blank, o, rules);
    var mid: Step<(string, bool)> :=
      if e.outcome.Success? then
        var (d1, rest, hasCat) := LstripActivityStep(e.state, e.outcome.value);
        Step(d1, Success((rest, hasCat)))
      else if e.outcome.error.ParserRaised? then HardStep(Blank, o, rules)
      else Raise(e.state, e.outcome.error);
    if mid.outcome.Failure? then Raise(mid.state, mid.outcome.error)
    else
      var (rest, hasCat) := mid.outcome.value;
      var t :=
        if hasCat then Step(CatStep(mid.state, rest, rules.separators, rules.hashStamps), Success(()))
        else TagsStep(mid.state, rest, rules.separators, rules.hashStamps);
      if t.outcome.Failure? then t
      else
        var h := HydrateStep(t.state, o, rules.separators);
        if !OptTruthy(h.activity) then Raise(h, ParserRaised(MissingActivity))
        else Step(h, Success(()))
  }

  /** `dissect_raw_fact`: a ParserException is returned when lenient and
      raised otherwise; any other exception always propagates. */
  function DissectStep(rules: Rules, o: TimeOracle): (r: Step<Option<ParserError>>)
    requires Ready(rules)
    ensures r.state == ParseStep(rules, o).state
    ensures ParseStep(rules, o).outcome.Success? <==> r.outcome == Success(None)
    ensures forall e :: r.outcome == Success(Some(e)) <==>
      rules.lenient && ParseStep(rules, o).outcome == Failure(ParserRaised(e))
    ensures r.outcome.Failure? ==> ParseStep(rules, o).outcome == Failure(r.outcome.error)
    ensures r.outcome.Failure? && r.outcome.error.ParserRaised? ==> !rules.lenient
  {
    var p := ParseStep(rules, o);
    match p.outcome
    case Success(_) => Step(p.state, Success(None))
    case Failure(ParserRaised(err)) =>
      if rules.lenient then Step(p.state, Success(Some(err))) else Step(p.state, Failure(ParserRaised(err)))
    case Failure(other) => Step(p.state, Failure(other))
  }

  /** A name or the description as the dict holds it: stripped, and ''
      when missing or empty. */
  function Tidy(t: Option<string>): (r: string)
    ensures Trimmed(r)
    ensures !OptTruthy(t) ==> r == []
    ensures OptTruthy(t) ==> |r| <= |t.value|
  {
    if OptTruthy(t) then StripTrims(t.value); Strip(t.value) else []
  }

  /** A time as the dict holds it: a false one becomes None. */
  function TimeOrNone(v: Loose): (r: Loose)
    ensures r == LNone || r.Truthy()
    ensures v.Truthy() ==> r == v
  {
    if v.Truthy() then v else LNone
  }

  /** The dict `parse_factoid` builds: false times become None; names and
      description are stripped, '' when missing; missing tags become []. */
  function Normalised(d: Dissected): (r: ParsedFact)
    ensures r.start == LNone || r.start.Truthy()
    ensures r.end == LNone || r.end.Truthy()
    ensures Trimmed(r.activity) && Trimmed(r.category) && Trimmed(r.description)
    ensures !OptTruthy(d.activity) ==> r.activity == []
    ensures d.tags.None? ==> r.tags == []
    ensures r.tags != [] ==> d.tags == Some(r.tags)
  {
    ParsedFact(
      TimeOrNone(d.first.value), TimeOrNone(d.second.value),
      Tidy(d.activity), Tidy(d.category), Tidy(d.description),
      if d.tags.Some? then d.tags.value else [])
  }

  /** `parse_factoid`: the normalised dict and the error a lenient parse
      returned, or what the parse raised. */
  function FactoidSpec(o: TimeOracle, factoid: seq<string>, timeHint: string, separators: seq<string>, hashStamps: string, lenient: bool): (r: Result<(ParsedFact, Option<ParserError>), Raised>)
    requires forall k | 0 <= k < |separators| :: separators[k] != []
    requires StampsOk(hashStamps)
    ensures lenient && r.Failure? ==> !r.error.ParserRaised?
    ensures r.Success? && r.value.1.None? ==> OptTruthy(DissectStep(RulesFor(factoid, timeHint, separators, hashStamps, lenient), o).state.activity)
  {
    var s := DissectStep(RulesFor(factoid, timeHint, separators, hashStamps, lenient), o);
    if s.outcome.Failure? then Failure(s.outcome.error)
    else Success((Normalised(s.state), s.outcome.value))
  }

  // ---------------------------------------------------------------------
  // What the parse does, stated over the steps
  // ---------------------------------------------------------------------

  /** With 'verify_none' no time is read: the time readers are never
      consulted, both times stay empty, and the parse succeeds exactly when
      the factoid holds an '@' that does not open it, the activity being the
      text before the first '@'. */
  lemma NoTimes(rules: Rules, o: TimeOracle)
    requires Ready(rules) && rules.timeHint == VerifyNone
    ensures var p := ParseStep(rules, o);
      && p.state.first == NoSlot && p.state.second == NoSlot
      && (p.outcome.Success? <==> ActegorySep in rules.flat && rules.flat[0] != ActegorySep)
      && (ActegorySep in rules.flat ==>
            && p.state.activity.Some? && ActegorySep !in p.state.activity.value
            && p.state.activity.value + [ActegorySep] <= rules.flat)
      && (ActegorySep in rules.flat && rules.flat[0] == ActegorySep ==>
            p.outcome == Failure(ParserRaised(MissingActivity)))
  {
    var (d1, rest, hasCat) := LstripActivityStep(Blank, rules.flat);
    if hasCat {
      var prefix := d1.activity.value;
      assert rules.flat == prefix + [ActegorySep] + rest;
      assert prefix + [ActegorySep] <= rules.flat;
      assert prefix == [] <==> rules.flat[0] == ActegorySep;
    }
  }

  /** With 'verify_none' the parse does not depend on the time readers. */
  lemma NoTimesIgnoresOracle(rules: Rules, o1: TimeOracle, o2: TimeOracle)
    requires Ready(rules) && rules.timeHint == VerifyNone
    ensures ParseStep(rules, o1) == ParseStep(rules, o2)
  {
    NoTimes(rules, o1);
    NoTimes(rules, o2);
  }

  /** The 'Unexpected time_hint' exception of `parse_datetimes_hard` is never
      raised through `parse`: an unknown hint fails the easy reading's
      `assert` first, and with a known hint the hard reading does not raise
      it. */
  lemma ParseNeverBadHint(rules: Rules, o: TimeOracle)
    requires Ready(rules)
    ensures ParseStep(rules, o).outcome != Failure(BadTimeHint)
  {
    var e := EasyStep(Blank, o, rules);
    EasyNoBadHint(o, rules);
    if e.outcome.Failure? && e.outcome.error.ParserRaised? {
      assert KnownHint(rules.timeHint);
      HardNoBadHint(o, rules);
    }
  }

  lemma EasyNoBadHint(o: TimeOracle, rules: Rules)
    ensures EasyStep(Blank, o, rules).outcome != Failure(BadTimeHint)
    ensures EasyStep(Blank, o, rules).outcome.Failure? && EasyStep(Blank, o, rules).outcome.error.ParserRaised? ==>
      KnownHint(rules.timeHint)
  {
  }

  lemma HardNoBadHint(o: TimeOracle, rules: Rules)
    requires KnownHint(rules.timeHint)
    ensures HardStep(Blank, o, rules).outcome != Failure(BadTimeHint)
  {
    if TimedHint(rules.timeHint) {
      LstripNoBadHint(o, rules, 2, false);
      LstripNoBadHint(o, rules, 1, false);
      LstripNoBadHint(o, rules, 2, true);
    }
  }

  lemma LstripNoBadHint(o: TimeOracle, rules: Rules, expecting: int, strictlyTwo: bool)
    requires expecting == 1 || expecting == 2
    ensures LstripDatetimesStep(Blank, o, rules, expecting, strictlyTwo).outcome != Failure(BadTimeHint)
  {
    var s := DelimitedStep(Blank, rules);
    DelimitedNoBadHint(rules);
    if s.outcome.Success? {
      var del := s.outcome.value;
      if OptTruthy(del.datetimes) {
        KnownNoBadHint(s.state, rules.timeHint, del.datetimes.value, expecting, strictlyTwo);
      } else {
        MagicNoBadHint(s.state, o, rules.timeHint, del.datetimesAndAct, expecting, strictlyTwo);
      }
    }
  }

  lemma DelimitedNoBadHint(rules: Rules)
    ensures DelimitedStep(Blank, rules).outcome != Failure(BadTimeHint)
    ensures RawsUnset(DelimitedStep(Blank, rules).state)
  {
  }

  lemma KnownNoBadHint(d: Dissected, hint: string, datetimes: string, expecting: int, strictlyTwo: bool)
    requires expecting == 1 || expecting == 2
    requires RawsUnset(d)
    ensures KnownStep(d, hint, datetimes, expecting, strictlyTwo).outcome != Failure(BadTimeHint)
  {
  }

  lemma MagicNoBadHint(d: Dissected, o: TimeOracle, hint: string, datetimesAndAct: string, expecting: int, strictlyTwo: bool)
    requires expecting == 1 || expecting == 2
    requires RawsUnset(d)
    ensures MagicStep(d, o, hint, datetimesAndAct, expecting, strictlyTwo).outcome != Failure(BadTimeHint)
  {
  }

  /** In the easy reading, a date separator with no time after it is
      accepted exactly when two times are strictly required ('verify_both'):
      `ok_if_missing` receives `strictly_two` itself. Under 'verify_start' the
      same text raises ParserMissingDatetimeTwoException. */
  lemma EasyBothSecondMissing(d: Dissected, o: TimeOracle, text: string, strictlyTwo: bool)
    requires FromRestStep(d, o, text, First, false).outcome.Success?
    requires var rest := FromRestStep(d, o, text, First, false).outcome.value;
      && DateSepAt(rest, 0).Some?
      && SeparatorCheck(SplitDates(rest).value).Success?
      && o.discern(SeparatorCheck(SplitDates(rest).value).value).None?
    ensures var r := EasyBothStep(d, o, text, strictlyTwo);
      && (r.outcome.Success? <==> strictlyTwo)
      && (!strictlyTwo ==> r.outcome == Failure(ParserRaised(MissingDatetimeTwo)))
  {
  }

  /** The branch `parse_tags_and_remainder` marks as impossible is reached:
      with no times and no '@', a word followed by a tag before the item
      separator fails its `assert False`. Being no ParserException, it
      propagates even from a lenient parse. */
  lemma TaggedTextAsserts(o: TimeOracle)
    ensures DissectStep(RulesFor(["a #b: c"], VerifyNone, [], [], true), o).outcome
      == Failure(AssertionRaised("parse_tags_and_remainder"))
  {
    var rules := RulesFor(["a #b: c"], VerifyNone, [], [], true);
    assert rules.flat == "a #b: c";
    assert ActegorySep !in rules.flat;
    TaggedTextCut();
    TaggedTextWords();
    var t := TagsStep(Blank, rules.flat, rules.separators, rules.hashStamps);
    assert t.outcome == Failure(AssertionRaised("parse_tags_and_remainder"));
  }

  /** "a #b: c" splits at its ':'. */
  lemma TaggedTextCut()
    ensures SplitItem("a #b: c", FactMetadataSeparators) == Some(Cut("a #b", ":", " c"))
  {
    var s := "a #b: c";
    ColonSeparates(s, 4);
    NoSeparatorAt(s, 3);
    NoSeparatorAt(s, 2);
    NoSeparatorAt(s, 1);
    assert FirstSep(s, FactMetadataSeparators, 0).None?;
    assert FirstItemSepFrom(s, FactMetadataSeparators, 3) == Some(4);
    assert FirstItemSepFrom(s, FactMetadataSeparators, 1) == Some(4);
    assert FirstItemSepFrom(s, FactMetadataSeparators, 0) == Some(4);
    assert s[..4] == "a #b" && s[5..] == " c";
  }

  /** No default separator matches at `i` when the character there is none
      of ',', ':' and a line break. */
  lemma NoSeparatorAt(s: string, i: nat)
    requires i < |s| && s[i] != ',' && s[i] != ':' && s[i] != '\n'
    ensures FirstSep(s, FactMetadataSeparators, i).None?
  {
    FirstSepNone(s, FactMetadataSeparators, i);
    forall sep | sep in FactMetadataSeparators
      ensures !ItemSepMatch(s, sep, i)
    {
      assert |sep| == 1 && sep[0] != s[i];
    }
  }

  /** ':' after a non-space and before a space is the separator ':'. */
  lemma ColonSeparates(s: string, i: nat)
    requires 0 < i && i + 1 < |s| && s[i] == ':' && !IsSpace(s[i - 1]) && IsSpace(s[i + 1])
    ensures FirstSep(s, FactMetadataSeparators, i) == Some(":")
  {
    assert !ItemSepMatch(s, ",", i);
    assert s[i..i + 1] == ":";
  }

  /** "a #b" is already stripped, and its tag follows the word "a ". */
  lemma TaggedTextWords()
    ensures Strip("a #b") == "a #b"
    ensures var ts := SplitTags(WordStart, DefaultHashStamps, "a #b");
      |ts| > 1 && Strip(ts[0]) != []
  {
    StripTrimmed("a #b");
    assert FirstTagFrom(WordStart, DefaultHashStamps, "a #b", 0) == Some(2);
    var ts := SplitTags(WordStart, DefaultHashStamps, "a #b");
    assert ts[0] == "a ";
    StripEmpty(ts[0]);
    assert !IsSpace(ts[0][0]);
  }

  // ---------------------------------------------------------------------
  // The Parser object
  // ---------------------------------------------------------------------

  /** Parser. Its attributes come in two groups, held here as two record
      fields: the rules `setup_rules` fills in (`raw` … `lenient`) and the
      result the steps fill in (`datetime1` … `description`). Each method is
      specified by the step function of the same name over the result. */
  class Parser {
    const oracle: TimeOracle
    var rules: Rules
    var result: Dissected

    /** `__init__`: every attribute reset. */
    constructor(oracle: TimeOracle)
      ensures this.oracle == oracle
      ensures rules == Unset && result == Blank
    {
      this.oracle := oracle;
      rules := Unset;
      result := Blank;
    }

    /** `reset_rules`. */
    method ResetRules()
      modifies this
      ensures rules == Unset && result == old(result)
    {
      rules := Unset;
    }

    /** `reset_result`. */
    method ResetResult()
      modifies this
      ensures rules == old(rules) && result == Blank
    {
      result := Blank;
    }

    /** `reset`. */
    method Reset()
      modifies this
      ensures rules == Unset && result == Blank
    {
      ResetRules();
      ResetResult();
    }

    /** `setup_rules` (with `setup_patterns`): everything reset, then the rules
        taken from the arguments. */
    method SetupRules(factoid: seq<string>, timeHint: string, separators: seq<string>, hashStamps: string, lenient: bool)
      requires forall k | 0 <= k < |separators| :: separators[k] != []
      requires StampsOk(hashStamps)
      modifies this
      ensures rules == RulesFor(factoid, timeHint, separators, hashStamps, lenient)
      ensures result == Blank
    {
      var tokens := if factoid == [] then [""] else factoid;
      var flat := Join(tokens, " ");
      var seps := if separators == [] then FactMetadataSeparators else separators;
      var stamps := if hashStamps == [] then DefaultHashStamps else hashStamps;
      Reset();
      rules := Rules(tokens, flat, tokens, timeHint, seps, stamps, lenient);
    }

    /** `dissect_raw_fact`. */
    method DissectRawFact(factoid: seq<string>, timeHint: string, separators: seq<string>, hashStamps: string, lenient: bool)
      returns (err: Result<Option<ParserError>, Raised>)
      requires forall k | 0 <= k < |separators| :: separators[k] != []
      requires StampsOk(hashStamps)
      modifies this
      ensures rules == RulesFor(factoid, timeHint, separators, hashStamps, lenient)
      ensures Step(result, err) == DissectStep(rules, oracle)
    {
      SetupRules(factoid, timeHint, separators, hashStamps, lenient);
      var r := Parse();
      match r
      case Success(_) =>
        err := Success(None);
      case Failure(ParserRaised(e)) =>
        err := if lenient then Success(Some(e)) else Failure(ParserRaised(e));
      case Failure(other) =>
        err := Failure(other);
    }

    /** `parse`. */
    method Parse() returns (r: Result<(), Raised>)
      requires Ready(rules)
      modifies this
      ensures rules == old(rules)
      ensures Step(result, r) == ParseStep(rules, oracle)
    {
      ResetResult();
      var restAfterAct: string, expectCategory: bool;
      var easy := ParseDatetimesEasy();
      if easy.Success? {
        restAfterAct, expectCategory := LstripActivity(easy.value);
      } else if easy.error.ParserRaised? {
        ResetResult();
        var hard := ParseDatetimesHard();
        if hard.Failure? {
          return Failure(hard.error);
        }
        restAfterAct, expectCategory := hard.value.0, hard.value.1;
      } else {
        return Failure(easy.error);
      }
      if expectCategory {
        ParseCatAndRemainder(restAfterAct);
      } else {
        r := ParseTagsAndRemainder(restAfterAct);
        if r.Failure? {
          return;
        }
      }
      HydrateDatetimes();
      if !OptTruthy(result.activity) {
        return Failure(ParserRaised(MissingActivity));
      }
      r := Success(());
    }

    /** `parse_datetimes_easy`. */
    method ParseDatetimesEasy() returns (r: Result<string, Raised>)
      modifies this
      ensures rules == old(rules)
      ensures Step(result, r) == EasyStep(old(result), oracle, rules)
    {
      if rules.timeHint == VerifyStart {
        r := ParseDatetimesEasyBoth(rules.flat, false);
      } else if rules.timeHint == VerifyEnd {
        r := MustParseDatetimeFromRest(rules.flat, Second, false);
      } else if rules.timeHint == VerifyBoth {
        r := ParseDatetimesEasyBoth(rules.flat, true);
      } else if rules.timeHint == VerifyNone {
        r := Success(rules.flat);
      } else {
        r := Failure(AssertionRaised("parse_datetimes_easy"));
      }
    }

    /** `parse_datetimes_easy_both`. */
    method ParseDatetimesEasyBoth(datetimeRest: string, strictlyTwo: bool) returns (r: Result<string, Raised>)
      modifies this
      ensures rules == old(rules)
      ensures Step(result, r) == EasyBothStep(old(result), oracle, datetimeRest, strictlyTwo)
    {
      r := MustParseDatetimeFromRest(datetimeRest, First, false);
      if r.Failure? {
        return;
      }
      var afterFirst := r.value;
      if DateSepAt(afterFirst, 0).Some? {
        var checked := SeparatorCheck(SplitDates(afterFirst).value);
        if checked.Failure? {
          return Failure(checked.error);
        }
        r := MustParseDatetimeFromRest(checked.value, Second, strictlyTwo);
      } else if strictlyTwo {
        r := Failure(ParserRaised(MissingDatetimeTwo));
      }
    }

    /** `must_parse_datetime_from_rest`; the `setattr` calls are `Put`. */
    method MustParseDatetimeFromRest(datetimeRest: string, which: Which, okIfMissing: bool) returns (r: Result<string, Raised>)
      requires okIfMissing ==> which == Second
      modifies this
      ensures rules == old(rules)
      ensures Step(result, r) == FromRestStep(old(result), oracle, datetimeRest, which, okIfMissing)
    {
      var found := oracle.discern(datetimeRest);
      if found.Some? {
        var dt := LText(found.value.dt);
        if found.value.kind == IsoDatetime {
          var parsed := HydrateIso8601(oracle, found.value.dt, true);
          if parsed.Failure? {
            return Failure(parsed.error);
          }
          dt := parsed.value;
        }
        result := Put(result, which, dt, found.value.kind);
        r := Success(found.value.rest);
      } else if which == First {
        r := Failure(ParserRaised(MissingDatetimeOne));
      } else if !okIfMissing {
        r := Failure(ParserRaised(MissingDatetimeTwo));
      } else {
        r := Success(datetimeRest);
      }
    }

    /** `parse_datetimes_hard`. */
    method ParseDatetimesHard() returns (r: Result<(string, bool), Raised>)
      requires RawsUnset(result)
      modifies this
      ensures rules == old(rules)
      ensures Step(result, r) == HardStep(old(result), oracle, rules)
    {
      if TimedHint(rules.timeHint) {
        var s: Result<string, Raised>;
        if rules.timeHint == VerifyStart {
          s := LstripDatetimes(2, false);
        } else if rules.timeHint == VerifyEnd {
          s := LstripDatetimes(1, false);
        } else {
          s := LstripDatetimes(2, true);
        }
        r := if s.Failure? then Failure(s.error) else Success((s.value, true));
      } else if rules.timeHint == VerifyNone {
        var restAfterAct, expectCategory := LstripActivity(rules.flat);
        r := Success((restAfterAct, expectCategory));
      } else {
        r := Failure(BadTimeHint);
      }
    }

    /** `lstrip_datetimes`. */
    method LstripDatetimes(expecting: int, strictlyTwo: bool) returns (r: Result<string, Raised>)
      requires expecting == 1 || expecting == 2
      requires RawsUnset(result)
      modifies this
      ensures rules == old(rules)
      ensures Step(result, r) == LstripDatetimesStep(old(result), oracle, rules, expecting, strictlyTwo)
    {
      var delimited := LstripDatetimesDelimited();
      if delimited.Failure? {
        return Failure(delimited.error);
      }
      var del := delimited.value;
      var k: Result<(), Raised>;
      if OptTruthy(del.datetimes) {
        k := MustParseDatetimesKnown(del.datetimes.value, expecting, strictlyTwo);
      } else {
        k := MustParseDatetimesMagic(del.datetimesAndAct, expecting, strictlyTwo);
      }
      if k.Failure? {
        return Failure(k.error);
      }
      r := Success(del.restAfterAct);
    }

    /** `lstrip_datetimes_delimited`. */
    method LstripDatetimesDelimited() returns (r: Result<Delimited, Raised>)
      modifies this
      ensures rules == old(rules)
      ensures Step(result, r) == DelimitedStep(old(result), rules)
    {
      var idx := MustIndexActegorySep(rules.flat, true);
      if idx.Failure? {
        return Failure(idx.error);
      }
      var i := idx.value;
      var datetimesAndAct := rules.flat[..i];
      var restAfterAct := rules.flat[i + 1..];
      var parts := SplitItem(datetimesAndAct, rules.separators);
      if parts.Some? {
        result := result.(activity := Some(parts.value.after));
        r := Success(Delimited(datetimesAndAct, Some(parts.value.before), restAfterAct));
      } else {
        r := Success(Delimited(datetimesAndAct, None, restAfterAct));
      }
    }

    /** `must_parse_datetimes_known`; its opening asserts are the
        precondition. */
    method MustParseDatetimesKnown(datetimes: string, expecting: int, strictlyTwo: bool) returns (r: Result<(), Raised>)
      requires expecting == 1 || expecting == 2
      requires RawsUnset(result)
      modifies this
      ensures rules == old(rules)
      ensures Step(result, r) == KnownStep(old(result), rules.timeHint, datetimes, expecting, strictlyTwo)
    {
      if expecting == 2 {
        var parts := SplitDates(datetimes);
        if parts.Some? {
          result := result.(first := result.first.(raw := Some(parts.value.before)),
                            second := result.second.(raw := Some(parts.value.after)));
        } else if strictlyTwo {
          return Failure(ParserRaised(MissingDatetimeTwo));
        }
      }
      if expecting == 1 || !OptTruthy(result.first.raw) {
        if rules.timeHint == VerifyStart {
          result := result.(first := result.first.(raw := Some(datetimes)),
                            second := result.second.(value := LText([])));
        } else if rules.timeHint != VerifyEnd || strictlyTwo {
          return Failure(AssertionRaised("must_parse_datetimes_known"));
        } else {
          result := result.(first := result.first.(value := LText([])),
                            second := result.second.(raw := Some(datetimes)));
        }
      }
      r := Success(());
    }

    /** `must_parse_datetimes_magic`; its opening asserts are the
        precondition. */
    method MustParseDatetimesMagic(datetimesAndAct: string, expecting: int, strictlyTwo: bool) returns (r: Result<(), Raised>)
      requires expecting == 1 || expecting == 2
      requires RawsUnset(result)
      modifies this
      ensures rules == old(rules)
      ensures Step(result, r) == MagicStep(old(result), oracle, rules.timeHint, datetimesAndAct, expecting, strictlyTwo)
    {
      var dtAndAct := datetimesAndAct;
      var which := First;
      if expecting == 2 {
        var parts := SplitDates(datetimesAndAct);
        if parts.Some? {
          result := result.(first := result.first.(raw := Some(parts.value.before)));
          dtAndAct, which := parts.value.after, Second;
        } else if strictlyTwo {
          return Failure(ParserRaised(MissingDatetimeTwo));
        }
      }
      if expecting == 1 || !OptTruthy(result.first.raw) {
        dtAndAct := datetimesAndAct;
        if rules.timeHint == VerifyStart {
          which := First;
        } else if rules.timeHint == VerifyEnd {
          which := Second;
        } else {
          return Failure(AssertionRaised("must_parse_datetimes_magic"));
        }
      }
      var after := MustParseDatetimeFromRest(dtAndAct, which, false);
      if after.Failure? {
        return Failure(after.error);
      }
      result := result.(activity := Some(after.value));
      r := Success(());
    }

    /** `lstrip_activity`. */
    method LstripActivity(actAndRest: string) returns (restAfterAct: string, expectCategory: bool)
      modifies this
      ensures rules == old(rules)
      ensures (result, restAfterAct, expectCategory) == LstripActivityStep(old(result), actAndRest)
    {
      var idx := MustIndexActegorySep(actAndRest, false).value;
      if idx >= 0 {
        result := result.(activity := Some(actAndRest[..idx]));
        restAfterAct, expectCategory := actAndRest[idx + 1..], true;
      } else {
        restAfterAct, expectCategory := actAndRest, false;
      }
    }

    /** `parse_cat_and_remainder`. */
    method ParseCatAndRemainder(catAndRemainder: string)
      modifies this
      ensures rules == old(rules)
      ensures result == CatStep(old(result), catAndRemainder, rules.separators, rules.hashStamps)
    {
      var parts := SplitItem(catAndRemainder, rules.separators);
      if parts.Some? {
        var c := parts.value;
        result := result.(description := Some(c.after));
        var category: string;
        if FirstTagFrom(AfterSpace, rules.hashStamps, c.before, 0).Some? {
          var pieces := SplitTags(AfterSpace, rules.hashStamps, c.before);
          category := pieces[0];
          ConsumeTags(pieces[1..]);
        } else {
          category := c.before;
        }
        result := result.(category := Some(category));
      } else {
        SkipTagsNoSep(catAndRemainder);
      }
    }

    /** `parse_tags_and_remainder`. */
    method ParseTagsAndRemainder(tagsAndRemainder: string) returns (r: Result<(), Raised>)
      modifies this
      ensures rules == old(rules)
      ensures Step(result, r) == TagsStep(old(result), tagsAndRemainder, rules.separators, rules.hashStamps)
    {
      ghost var spec := TagsStep(result, tagsAndRemainder, rules.separators, rules.hashStamps);
      var parts := SplitItem(tagsAndRemainder, rules.separators);
      if parts.Some? {
        var c := parts.value;
        result := result.(description := Some([]));
        var pieces := SplitTags(WordStart, rules.hashStamps, Strip(c.before));
        if Strip(pieces[0]) != [] {
          if |pieces| == 1 {
            result := result.(description := Some(pieces[0] + c.sep + c.after));
          } else {
            assert spec == Step(result, Failure(AssertionRaised("parse_tags_and_remainder")));
            return Failure(AssertionRaised("parse_tags_and_remainder"));
          }
        } else {
          ConsumeTags(pieces);
          result := result.(description := Some(c.sep + c.after));
        }
        assert spec == Step(result, Success(()));
      } else {
        SkipTagsNoSep(tagsAndRemainder);
      }
      r := Success(());
    }

    /** `skip_tags_no_sep`; the warning it may log is not modelled. */
    method SkipTagsNoSep(part: string)
      modifies this
      ensures rules == old(rules)
      ensures result == SkipTagsStep(old(result), part)
    {
      result := result.(description := Some(part));
    }

    /** `consume_tags`. */
    method ConsumeTags(pieces: seq<string>)
      modifies this
      ensures rules == old(rules)
      ensures result == old(result).(tags := Some(StripAll(pieces)))
    {
      result := result.(tags := Some(StripAll(pieces)));
    }

    /** `hydrate_datetimes`. */
    method HydrateDatetimes()
      requires SeparatorsOk(rules.separators)
      modifies this
      ensures rules == old(rules)
      ensures result == HydrateStep(old(result), oracle, rules.separators)
    {
      result := result.(first := result.first.(value := HydrateEither(oracle, rules.separators, result.first.value, result.first.raw)));
      result := result.(second := result.second.(value := HydrateEither(oracle, rules.separators, result.second.value, result.second.raw)));
    }
  }

  /** `parse_factoid`: a fresh Parser dissects the factoid, and its result is
      normalised into the dict. */
  method ParseFactoid(oracle: TimeOracle, factoid: seq<string>, timeHint: string, separators: seq<string>, hashStamps: string, lenient: bool)
    returns (r: Result<(ParsedFact, Option<ParserError>), Raised>)
    requires forall k | 0 <= k < |separators| :: separators[k] != []
    requires StampsOk(hashStamps)
    ensures r == FactoidSpec(oracle, factoid, timeHint, separators, hashStamps, lenient)
  {
    var parser := new Parser(oracle);
    var err := parser.DissectRawFact(factoid, timeHint, separators, hashStamps, lenient);
    if err.Failure? {
      return Failure(err.error);
    }
    r := Success((Normalised(parser.result), err.value));
  }
}
