# nark / hamster_lib core, modelled in Dafny

This project models the in-memory core of the nark time-tracking library
and of the hamster_lib it grew out of, and proves properties of it. The
parts modelled are these:

- **Layered settings.** A setting (`KeyChainedValue`) is resolved through
  forced, command-line, environment, config-file and default sources, with
  type deduction, coercion and validation. The settings tree
  (`ConfigDecorator`) supports path lookup, dotted `setdefault`, loading
  from a nested dict and dumping to one.
- **Facts.** The `Fact` item covers description and tag normalisation,
  squashing, tuple equality and duration strings.
- **The fact managers.** This covers `save`'s minimum-length check, the
  `get_all` range checks, stopping the ongoing fact, and `insert_forcefully`.
  That last operation trims, deletes or splits every stored fact that
  overlaps a new one. The legacy hamster_lib manager is modelled alongside
  the nark one.
- **Time helpers.** Clock-time and relative-minute readers, anchoring a clock
  reading before or after a moment, work-day ends, time-range checks, and
  the ISO 8601 `strftime` pattern builder.
- **Text helpers.** One-line truncated previews.
- **The factoid parser** (`Parser`). It splits
  `<times> <activity>@<category> #tags: description` into its parts, with
  the lenient and strict error policies and the normalised dict of
  `parse_factoid`.
- **Query terms and log levels.** The query-term properties and the
  log-level name check.

Datetimes are whole seconds on an unbounded integer line, kept apart from a
microsecond field and an optional UTC offset (`Clock.DateTime`). Python
values whose type matters at run time (`None`, a string, a datetime, any
other object with its truthiness) are the `Clock.Loose` datatype. Every
exception a member can raise is a value of an error datatype returned in a
`Result`.

Objects whose fields the source updates in place are classes:
- `KeyChainedVal.KeyChainedValue`, one setting;
- `Inify.Config`, the holder of a settings tree, whose root section the operations rearrange;
- `FactItem.Fact`, whose instances `ForcedInsert` and
  `LegacyFactManager` edit in place while resolving conflicts;
- `Parsing.Parser`.

Each class's methods are specified by a function over the old state. The
fact managers' backend queries (`surrounding`, `strictly_during`,
`antecedent`, `subsequent`, `starting_at`, `ending_at`) are specified
functions over an in-memory store of facts.

The time readers the parser hands text to (`HamsterTimeSpec.discern`,
`iso8601.parse_date`, `dateparser.parse`) are a parameter, `TimeOracle`:
a record of three functions the caller supplies. The parser's contracts
hold for every choice of them.

The model runs the code as written, with two kinds of exception. Where a
Findings row records a bug, the rest of the model uses the corrected
member, and the as-written member is kept beside it. In particular the
parser uses the corrected separator check, so a range written `A - B` or
`A | B` parses where the code raises AssertionError. Where a helper the
code calls is missing from the library, a named stand-in is used; the
legacy `end_day_to_datetime` is replaced by nark's `day_end_datetime`.

Where the code and the tests disagree, the model follows the code:
- `Fact.get_string_delta('%M')` gives the minutes within the hour, not
  the total minutes;
- an unknown format falls back instead of raising;
- `get_log_level_safe` returns the name, not a number, outside the
  completion command.

## Model

| member | source | states |
|---|---|---|
| LogLevels.MustVerifyLogLevel | nark/config/log_levels.py:56-64 | succeeds exactly when the lower-cased name is a key of the five-entry table, with that entry's level; otherwise the error repeats the name and lists the five names |
| LogLevels.GetLogLevelSafe | nark/config/log_levels.py:67-79 | fails exactly when the name check fails; answers CRITICAL+1 exactly when argv is `[prog, 'complete']`, otherwise the name unchanged |
| LogLevels.VerifyIgnoresCase | nark/config/log_levels.py:58 | a name and its upper-case spelling are accepted or refused together and map to the same level |
| LogLevels.LevelsIncrease | nark/config/log_levels.py:39-45 | later table entries have higher levels, all below the completion override CRITICAL+1 |
| QueryTerms.Defaults | nark/managers/query_terms.py:59-241 | terms set up without arguments have every option off, empty or None |
| QueryTerms.Activities | nark/managers/query_terms.py:245-250 | an entry is listed iff it is in `match_activities` or is `activity`, and it is not the `False` placeholder; a set `activity` comes last |
| QueryTerms.Categories | nark/managers/query_terms.py:252-257 | the same rule over `match_categories` and `category` |
| QueryTerms.Restrictions | nark/managers/query_terms.py:247-250 | an entry is kept iff it is listed and is not the `False` placeholder; never longer than the list, and a list without placeholders is kept whole |
| QueryTerms.RestrictionsAppend | nark/managers/query_terms.py:247-250 | filtering `refs + [last]` is filtering `refs`, then `last` unless it is the placeholder, so the order of the list is kept |
| QueryTerms.IsGrouped | nark/managers/query_terms.py:259-267 | true iff any of the four group-by options is set |
| QueryTerms.SortsOnStat | nark/managers/query_terms.py:269-274 | fails (the `set(None)` TypeError) iff no sort columns are set; otherwise a column is in the result iff it is a sort column and one of usage, time, day |
| QueryTerms.DefaultsRestrictNothing | nark/managers/query_terms.py:59-274 | fresh terms list no activities or categories, are not grouped, and raise on `sorts_on_stat` |
| FormatText.SplitLines | nark/helpers/format_text.py:32 | `splitlines`: no line holds a break, and the empty text, and only it, has no lines |
| FormatText.SplitUnsplit | nark/helpers/format_text.py:32 | `splitlines` undoes `'\n'.join`: lines without breaks, the last one not empty, come back exactly as they were joined |
| FormatText.FormatValueTruncate | nark/helpers/format_text.py:29-36 | an empty value comes back as it is; the result never holds a line break; with no width, a negative width or a width the escaped text fits in, the result is the escaped text whole; for a width of 3 or more that the escaped text exceeds, exactly that wide and starting with the escaped text |
| FormatText.SingleLineUnchanged | nark/helpers/format_text.py:30-36 | a one-line value no wider than the width, or with no width, comes back unchanged |
| FormatText.TwoLines | nark/helpers/format_text.py:32 | two lines are joined by the two-character escape `\n` |
| FormatText.TruncatedWidth | nark/helpers/format_text.py:33-35 | for a width of 3 or more that the escaped text exceeds, the preview is exactly that wide: the start of the escaped text, then `...` |
| FormatText.NarrowWidthOverflows | nark/helpers/format_text.py:34-35 | for a width of 0 to 2 the negative slice keeps `len - 3 + width` characters, so the preview is always wider than asked and ends in `...` |
| FormatTime.FormatTimespec | nark/helpers/format_time.py:77-96 | fails iff the timespec is not one of the six known ones; `auto` is seconds without microseconds and microseconds with them; every pattern starts with `%H`; milliseconds append exactly three digits spelling `micro // 1000` |
| FormatTime.Isoformat | nark/helpers/format_time.py:37-75 | the pattern is `%Y-%m-%d` + sep + the time part, plus `%z` only for an aware value with `include_tz`; the moment rendered is the same instant, moved to UTC when the offset is dropped |
| FormatTime.IsoformatTzinfo | nark/helpers/format_time.py:101-106 | anything but a datetime comes back unchanged; a datetime is rendered with its offset |
| FormatTime.IsoformatTzless | nark/helpers/format_time.py:109-114 | anything but a datetime comes back unchanged; a datetime is rendered without offset, in UTC when aware |
| FormatTime.TzlessIgnoresOffset | nark/helpers/format_time.py:64-75 | two aware values for the same instant render alike without their offsets |
| Clock.Before | nark/helpers/time.py:125-130 | Python's `<` on datetimes: a TypeError iff one is aware and the other naive; otherwise ordered by instant, then microsecond |
| Clock.BeforeAsymmetric | nark/helpers/time.py:128 | two comparable datetimes are never each before the other |
| TimeHelpers.DayEndTime | nark/helpers/time.py:74-87 | a clock time one second before the start, wrapping past midnight |
| TimeHelpers.DayEndDatetime | nark/helpers/time.py:34-71 | the day start plus one day less a second; it stays on `end_date` iff the start is missing or midnight, and its clock reading is `day_end_time` of the start |
| TimeHelpers.MustBeDatetimeOrRelative | nark/helpers/time.py:90-103 | a false value, a string or a datetime passes (a datetime loses its microseconds only); anything else fails with a TypeError naming its type |
| TimeHelpers.MustBeDatetimeOrRelativeIdempotent | nark/helpers/time.py:90-103 | normalising twice is normalising once |
| TimeHelpers.MustBeDatetimeOrRelativeAsWritten | nark/helpers/time.py:90-103 | the same acceptance, but the refusal is an IndexError |
| TimeHelpers.AsWrittenDiffersOnlyInError | nark/helpers/time.py:98-103 | the code as written and the corrected version agree except for the exception of the refusal |
| TimeHelpers.IntegerRaisesIndexError | nark/helpers/time.py:98-103 | a truthy integer gets an IndexError as written, a TypeError as intended |
| TimeHelpers.MustNotStartAfterEnd | nark/helpers/time.py:106-132 | passes unless both are datetimes; then it fails iff the end is before the start (start == end passes), with a TypeError when one is aware and one naive; the pair comes back unchanged |
| TimeHelpers.CheckedRangeOrdered | nark/helpers/time.py:106-132 | a range with both ends that passes the check never runs backwards |
| Dated.ParseClockTime | nark/helpers/dated.py:217-228 | a match gives 1-2 hour digits, 2 minute digits and 2 second digits or `'0'`, and the text (up to a final newline) is their spelling with or without the colon |
| Dated.ClockRoundTrip | nark/helpers/dated.py:217-228 | every triple the pattern can give is read back from its own text, with or without the colon, so no range check applies (`99:99` is accepted) |
| Dated.DatetimeFromClockPrior | nark/helpers/dated.py:231-243 | fails iff `replace` fails; otherwise the same microsecond and offset at the given clock reading, at or before the reference and less than a day before it |
| Dated.ClockPriorIsLatest | nark/helpers/dated.py:231-243 | no moment with that clock reading at or before the reference is later than the one picked |
| Dated.DatetimeFromClockAfter | nark/helpers/dated.py:246-255 | fails iff `replace` fails; otherwise the same microsecond and offset at the given clock reading, at or after the reference and less than a day after it |
| Dated.ClockAfterIsEarliest | nark/helpers/dated.py:246-255 | no moment with that clock reading at or after the reference is earlier than the one picked |
| Dated.ParseRelativeMinutes | nark/helpers/dated.py:262-283 | on a match, `negative` holds iff the text starts with `-`, and the count is then at most 0, otherwise at least 0 |
| Dated.RelativeRoundTrip | nark/helpers/dated.py:262-283 | `[-]<h>h<MM>m` reads back as the signed minutes `h*60 + m` with its sign flag |
| Dated.MinusZero | nark/helpers/dated.py:278-282 | `-0` gives zero minutes with `negative` True; `0` gives zero with `negative` False |
| KeyChainedVal.Apply | nark/config/key_chained_val.py:76-96 | the conversions a default's type selects: `bool` gives Python truthiness; the list wrapper keeps a non-empty list and wraps anything else, the empty list included, in a one-element list; `str` gives the string form; `int` succeeds exactly when the int conversion does, with its value or its error; the identity gives the value itself |
| KeyChainedVal.Typify | nark/config/key_chained_val.py:125-131 | for a bool setting exactly `'True'` and `'False'` map to True and False and every other value to its truthiness; other types go through their conversion |
| KeyChainedVal.TypifyIdempotent | nark/config/key_chained_val.py:125-131 | converting a converted value again changes nothing for the built-in conversions |
| KeyChainedVal.BoolFromText | nark/config/key_chained_val.py:125-131 | `'false'` maps to True and `''` to False for a bool setting |
| KeyChainedVal.EmptyListWrapped | nark/config/key_chained_val.py:91 | the list wrapper wraps the empty list, which is false, as `[[]]` |
| KeyChainedVal.DeduceDefaultType | nark/config/key_chained_val.py:76-96 | a supported default (None, bool, int, list, str) selects a built-in conversion, the identity exactly for None; any other default raises a bare NotImplementedError, with no message; which conversion each kind selects is stated by `DefaultSurvivesItsType` and `DeducedTypeKeepsKind` |
| KeyChainedVal.DefaultSurvivesItsType | nark/config/key_chained_val.py:76-96 | a supported default converted by the type deduced from it comes back unchanged, except the empty list, which the list wrapper turns into `[[]]` |
| KeyChainedVal.DeducedTypeKeepsKind | nark/config/key_chained_val.py:125-131 | whatever a deduced type converts successfully has the kind of the default it was deduced from |
| KeyChainedVal.DeduceValueType | nark/config/key_chained_val.py:69-74 | an explicit type wins; else an ephemeral setting keeps values as they are; else the type deduced from the default, failing only for an unsupported default |
| KeyChainedVal.ComputedFlagOffOutsideSection | nark/config/key_chained_val.py:102-119 | a callable `ephemeral`/`hidden` flag is False while the setting has no section, and the callable's answer inside one |
| KeyChainedVal.EnvName | nark/config/key_chained_val.py:215-222 | the environment key starts with `DOB_`; at the root it is `DOB__` and the upper-cased name |
| KeyChainedVal.EnvNames | nark/config/key_chained_val.py:215-222 | `tz_aware` at the root reads `DOB__TZ_AWARE`; `engine` in section `db` reads `DOB_DB_ENGINE` |
| KeyChainedVal.KeyChainedValue.constructor | nark/config/key_chained_val.py:30-52 | a new setting keeps its arguments and has no forced, command-line or config value |
| KeyChainedVal.KeyChainedValue.Create | nark/config/key_chained_val.py:30-52 | fails exactly when the value type cannot be deduced; otherwise a fresh setting with the deduced type and empty slots |
| KeyChainedVal.KeyChainedValue.CastAndValidate | nark/config/key_chained_val.py:173-190 | a conversion error is passed on; with a validator, success exactly when it accepts the converted value (choices ignored), and a raising validator's message is passed on; without one, success exactly when there are no choices or the value is among them; a success carries the converted value; a refusal names the setting and lists the choices only in the choices case |
| KeyChainedVal.KeyChainedValue.Value | nark/config/key_chained_val.py:138-161 | the first populated slot in the order forced, command line, environment (validated), config file, default; a populated false value still wins |
| KeyChainedVal.KeyChainedValue.Stored | nark/config/key_chained_val.py:163-171 | what the `value` setter stores: the validated value converted once more, which for a built-in type is the validated value itself |
| KeyChainedVal.KeyChainedValue.SetValue | nark/config/key_chained_val.py:163-171 | writes only the config slot, with the stored value, and only on success |
| KeyChainedVal.KeyChainedValue.SetForced | nark/config/key_chained_val.py:198-200 | writes the converted value to the forced slot, without validation or a choices check |
| KeyChainedVal.KeyChainedValue.SetCliarg | nark/config/key_chained_val.py:208-210 | writes the converted value to the command-line slot, without validation or a choices check |
| KeyChainedVal.KeyChainedValue.SetConfig | nark/config/key_chained_val.py:230-232 | writes the converted value to the config slot, without validation |
| KeyChainedVal.KeyChainedValue.ForgetConfigValue | nark/config/key_chained_val.py:234-238 | clears the config slot, so the setting is no longer persisted; a no-op when unset |
| KeyChainedVal.StoredValueReadBack | nark/config/key_chained_val.py:139-171 | with no forced, command-line or environment value, reading a setting gives back what the setter stored |
| Inify.UpdateAll | nark/config/inify.py:67 | `OrderedDict.update`: for each key the last entry of the update wins, and keys it does not mention keep their entry |
| Inify.WalkCoversFrame | nark/config/inify.py:132-136 | `_walk` visits exactly the settings held anywhere in the tree |
| Inify.Get | nark/config/inify.py:154-157 | descending a path of section names reaches a section of the last name, or raises KeyError for a name on the path |
| Inify.GetSnoc | nark/config/inify.py:154-157 | descending one more name is a lookup among the reached section's subsections |
| Inify.Replace | nark/config/inify.py:70 | replacing the section at a path leaves it reachable at that path and every other part of the path's ancestors unchanged |
| Inify.SectionPath | nark/config/inify.py:123-130 | the names from the root's child down to the receiver, then `parts`, joined with `sep`; the root alone gives `''` |
| Inify.EnvNameUsesSectionPath | nark/config/inify.py:123-130 | a setting's environment key is built from its section's `_section_path` with `_` |
| Inify.Exact | nark/config/inify.py:159-163 | at most the section, then the setting, of that name at this level; no section when sections are skipped |
| Inify.FindObjectsNamed | nark/config/inify.py:169-180 | every object found has the name; this level's exact matches come first, before any subsection's; none is a section when sections are skipped |
| Inify.FindsNestedSetting | nark/config/inify.py:169-180 | the loose search is complete: a setting held by any section of the tree is found under its name |
| Inify.Find | nark/config/inify.py:138-167 | no parts gives the receiver; one part the loose search; several parts fail iff a section on the way is missing, and give the last section's exact matches |
| Inify.FindSetting | nark/config/inify.py:187-191 | the first setting found, named by the last part, or None when nothing is found; fails iff the search fails |
| Inify.FindOneObject | nark/config/inify.py:282-302 | succeeds iff the dotted search finds exactly one object; more than one is KeyError, none is the Unrecognized Exception, a missing section the search's KeyError |
| Inify.UndottedIsLoose | nark/config/inify.py:283-288 | a name without a dot is searched loosely through the whole tree |
| Inify.DottedIsExact | nark/config/inify.py:283-286 | `a.b` is the exact search for `b` in section `a` |
| Inify.UpdateFromDict | nark/config/inify.py:72-84 | succeeds iff every assignment the dict asks for is accepted; the settings the dict names, when not ephemeral, hold the stored value; no other setting changes |
| Inify.UpdateSections | nark/config/inify.py:73-75 | the subsection loop succeeds iff every subsection named in the dict loads; settings outside those it loads keep their value |
| Inify.UpdateSettings | nark/config/inify.py:76-83 | succeeds iff every non-ephemeral setting the dict names accepts its value, which it then holds; the others are unchanged |
| Inify.SectionsPrefix | nark/config/inify.py:73-75 | a subsection that fails makes the whole load fail |
| Inify.ForgetConfigValues | nark/config/inify.py:193-196 | afterwards no setting of the tree holds a config-file value |
| Inify.Choose | nark/config/inify.py:111-119 | the default when `use_defaults or (not persisted and not skip_unset)` and the setting is visible or hidden ones are added; else the config value when persisted and not `use_defaults`; otherwise nothing, and exactly then |
| Inify.SettingsDownloadedWrites | nark/config/inify.py:93-100 | the settings step writes the chosen value of the last setting with each name and leaves names no setting has as they were |
| Inify.DownloadSettings | nark/config/inify.py:93-100 | the settings loop computes the settings step |
| Inify.DownloadSection | nark/config/inify.py:103-109 | one subsection is dumped into its entry, created when missing and removed again when nothing was written and it did not exist |
| Inify.DownloadSections | nark/config/inify.py:91-92 | the subsection loop computes the dump of every subsection in order |
| Inify.SectionsFailurePersists | nark/config/inify.py:91-92 | once a subsection fails, the dump fails with that error |
| Inify.DownloadInto | nark/config/inify.py:86-121 | the recursive dump computes the dump function |
| Inify.DownloadToDictAsWritten | nark/config/inify.py:86-121 | the dump as written: subsections dumped with the default flags |
| Inify.DownloadToDict | nark/config/inify.py:86-121 | the dump with the flags forwarded to every subsection |
| Inify.SkipUnsetWritesNothing | nark/config/inify.py:86-121 | with `skip_unset` and no `use_defaults`, a tree with no persisted setting dumps nothing into an empty dict, when the flags are forwarded |
| Inify.FlagsNotForwarded | nark/config/inify.py:103-109 | as written, an unset visible setting one level down is still written with its default under `skip_unset`; forwarding the flags writes nothing |
| Inify.PullKvCache | nark/config/inify.py:60-70 | every pending setting of the parent is re-owned by the child, which takes them over and is registered under its name |
| Inify.PulledFindsSettings | nark/config/inify.py:60-70 | after the pull the child is found under its name, each pending setting is found in it under its own name, and nothing is pending at the parent |
| Inify.DeclaredThenClaimed | nark/config/inify.py:202-220 | a setting declared against a section is found in the subsection that next claims the pending settings |
| Inify.PulledKeepsOwn | nark/config/inify.py:67 | a name the parent had nothing pending for keeps the child's own setting |
| Inify.Claimant | nark/config/inify.py:330-358 | the existing subsection when named by a string already registered, otherwise a new empty section with the name |
| Inify.Config.constructor | nark/config/inify.py:38-58 | a new root has no settings, subsections or pending settings |
| Inify.Config.Section | nark/config/inify.py:330-358 | the claimant takes over the pending settings, which name it as owner, and is reachable under its name |
| Inify.Config.AddSetting | nark/config/inify.py:202-220 | fails iff the value type cannot be deduced; otherwise a fresh setting without section waits among the section's pending settings under its name |
| Inify.Config.GetSection | nark/config/inify.py:263-275 | the subsection exists afterwards; an existing one leaves the tree unchanged; a new one pulls the parent's pending settings |
| Inify.DescendStep | nark/config/inify.py:263-275 | `_getsection` on values: afterwards the subsection exists; an existing one leaves the tree as it was, a missing one is created empty and takes over the parent's pending settings, the rest of the tree kept (`Replace`) |
| Inify.Descended | nark/config/inify.py:249-251 | the tree after one `_getsection` per section name, in order; every section on the path exists in it |
| Inify.Config.Descend | nark/config/inify.py:249-251 | the new tree is `Descended` of the old one: every section named on the way exists, created where missing, and nothing else changes; when all of them were there already, the tree is unchanged |
| Inify.SplitNames | nark/config/inify.py:240-246 | every name split on `.`, in order; no part holds a dot |
| Inify.SplitNamesUndotted | nark/config/inify.py:240-246 | names without dots are taken as they are |
| Inify.Config.SetSettingAsWritten | nark/config/inify.py:248-261 | after the descent, an existing setting in the reached section is handed back and the tree is the descended one; otherwise a fresh setting owned by the root is registered among the root's own settings, the descended tree otherwise unchanged, and the value is returned |
| Inify.Config.SetSetting | nark/config/inify.py:248-261 | the same, with the new setting owned by and registered in the section the descent reached; the new tree is the descended one with only that section's settings extended (`WithSetting`) |
| Inify.RootRegistrationUnreachable | nark/config/inify.py:252-260 | as written, after `setdefault('a.b', v)` registers `b` at the root, `a.b` is still unrecognized |
| Inify.SectionRegistrationFound | nark/config/inify.py:252-260 | registered in the section reached, the new setting is what `a.b` finds |
| Inify.Config.SetdefaultAsWritten | nark/config/inify.py:222-277 | returns nothing; too few arguments end in the NameError of `lens`; otherwise the split names give the sections to descend and the setting; the new tree is the descended one, plus, for a new setting, a fresh setting owned by the root among the root's own settings; a setting already in place leaves the tree as it was |
| Inify.Config.Setdefault | nark/config/inify.py:222-277 | returns nothing; too few arguments raise the TypeError; otherwise the setting is found afterwards in the section reached; the new tree is the descended one, plus, for a new setting, a fresh setting owned by that section and defaulting to the value, registered there only; one already in place leaves the tree as it was |
| Inify.DottedSetdefaultAsWritten | nark/config/inify.py:252-260 | the method as written, called with `a.b` on a tree whose section `a` lacks `b`: afterwards `a.b` is still unrecognized |
| Inify.DottedSetdefault | nark/config/inify.py:252-260 | the corrected method on the same tree: afterwards `a.b` finds the new setting, whose default is the value |
| FactItem.Fact.constructor | nark/items/fact.py:56-120 | the slots `__init__` fills directly keep their arguments; the setter-backed slots start empty |
| FactItem.Fact.SetStart | nark/items/fact.py:242-258 | the start slot takes the value `must_be_datetime_or_relative` returns, or keeps its old value while the error is raised |
| FactItem.Fact.SetEnd | nark/items/fact.py:283-294 | the same check and effect for the end slot |
| FactItem.Fact.SetDescription | nark/items/fact.py:457-466 | a false value is stored as None and anything else as given, so the slot never holds `''` |
| FactItem.SquashedDescriptionParts | nark/items/fact.py:468-476 | nothing is added when the other description is empty; otherwise the result is this description, `sep` only when this one was set, then the other's |
| FactItem.Fact.DescriptionSquash | nark/items/fact.py:468-476 | a no-op when the other description is empty; otherwise this one becomes the squashed description and the other is cleared |
| FactItem.TagItemsSet | nark/items/fact.py:478-487 | wrapping names as tags keeps exactly those tags |
| FactItem.Fact.TagsReplace | nark/items/fact.py:478-487 | the new tag list holds each distinct tag of the argument once and nothing else |
| FactItem.SortByName | nark/items/fact.py:492-493 | the sort is a permutation of the tags |
| FactItem.InsertByName | nark/items/fact.py:492-493 | one step of the stable sort: the tags plus the new one, nothing lost or added |
| FactItem.InsertByNameSorted | nark/items/fact.py:492-493 | inserting into tags ordered by name keeps them ordered |
| FactItem.SortByNameSorted | nark/items/fact.py:492-493 | `tags_sorted` orders by name and is a permutation |
| FactItem.Fact.Squash | nark/items/fact.py:209-233 | under the asserted conditions, this fact ends at the other's start (or end), takes its activity when it names an activity or category, unions the tags, appends its description, and the other is deleted with this fact's times |
| FactItem.Fact.AbsorbActivityAndTags | nark/items/fact.py:225-229 | the other's activity replaces this one's only when it names an activity or a category; the tags become the union |
| FactItem.Fact.MarkSquashed | nark/items/fact.py:230-233 | the absorbed fact is deleted and carries the given times |
| FactItem.Fact.Copy | nark/items/fact.py:170-190 | a fresh fact with the same fields, keeping the key only when asked |
| FactItem.TagTuplesDropKeys | nark/items/fact.py:138-168 | tag tuples with keys determine the tuples without keys |
| FactItem.KeyOnlyDifference | nark/items/fact.py:122-207 | facts differing only in their own key have equal fields, and are equal exactly when the keys agree |
| FactItem.EqualsThenEqualFields | nark/items/fact.py:122-207 | equal facts have equal fields |
| FactItem.Fact.AsTuple | nark/items/fact.py:138-168 | the key slots of the fact, its activity and its tags read False exactly when keys are left out; the tuple names the fact's tags and keeps its description and flags |
| FactItem.Fact.Equals | nark/items/fact.py:122-126 | equal facts have the same key, description and flags, and start and end equal as Python compares datetimes |
| FactItem.Fact.EqualFields | nark/items/fact.py:192-207 | the same, the key aside |
| FactItem.TimeKeyExact | nark/items/fact.py:161-162 | the times in two tuples agree exactly when Python's `==` holds between them: aware datetimes by instant, naive ones by wall clock, never an aware against a naive one |
| FactItem.SameInstantsEqual | nark/items/fact.py:122-168 | facts that differ only in how their times write the same instants are equal and have equal fields |
| FactItem.OneInstantTwoOffsets | nark/items/fact.py:161-162 | 10:00 at UTC+1 is the same moment as 09:00 at UTC; 09:00 at UTC is not the naive 09:00 |
| FactItem.Fact.TagsSorted | nark/items/fact.py:492-493 | the tags ordered by name, a permutation of the fact's tags |
| FactItem.Fact.Delta | nark/items/fact.py:330-342 | no delta without a start datetime; with both times datetimes, `end - start` whatever `now` is, when they are of one kind; without an end, `now - start` |
| FactItem.TagNamesSet | nark/items/fact.py:478-487 | tags given by name become new tags without a key, one per distinct name |
| FactItem.ShellifiedActegory | nark/items/fact.py:674-691 | shellifying only wraps the plain string in double quotes; activity `a` in category `b` reads `"a@b"` |
| FactItem.TagOrderIrrelevant | nark/items/fact.py:138-168 | the tuple, so equality and the hash, does not depend on the order of the tags |
| FactItem.SortedTagTuples | nark/items/fact.py:155-160 | sorting tags that are a permutation of each other gives the same tag tuples |
| FactItem.RecDelta | nark/items/fact.py:330-342 | `end - start` in microseconds, with `now` for a missing end; fails exactly when they are not two datetimes of one kind |
| FactItem.MomentaneousLastsNothing | nark/items/fact.py:313-342 | a momentaneous fact (`times_ok` and start == end) lasts no time |
| FactItem.DeltaSplit | nark/items/fact.py:359-363 | a non-negative duration is whole hours plus 0-59 minutes plus less than a minute |
| FactItem.Fact.GetStringDelta | nark/items/fact.py:344-393 | fails iff the delta does; a rendering exactly for `%M`, `%H:%M` and `HHhMMm` |
| FactItem.ClockDeltaReadsBack | nark/items/fact.py:366-377 | below 100 hours `%H:%M` is five characters, two digits, a colon, two digits, reading back as the hours and the minutes within the hour |
| FactItem.SevenHoursThirtyTwo | nark/items/fact.py:364-377 | 452 minutes give `07:32` under `%H:%M` and `32` under `%M` |
| FactItem.Fact.ActegoryString | nark/items/fact.py:674-691 | `''` with neither name, `@` with only a category, otherwise `activity@category` (quoted when shellified) |
| FactItem.Fact.DescriptionString | nark/items/fact.py:693-699 | `''` without a description; without a cut width, `sep` and the description verbatim; with one, `sep` and a single line, the escaped description whole when it fits the width or the width is negative, exactly the width wide when 3 or more and exceeded |
| FactItem.CreateFromParsedFactAsWritten | nark/items/fact.py:866-875 | as written every call raises AttributeError for the missing `validate_start_end_range` |
| FactItem.ParsedFactAlwaysRefused | nark/items/fact.py:872-884 | a parse with an activity and no times, which every check accepts, is refused as written |
| FactItem.CreateFromParsedFact | nark/items/fact.py:866-901 | a bad range raises the range error; otherwise ValueError exactly when the name is empty and not lenient; once an activity is available it succeeds exactly when both times pass the time setters; a fresh fact with that activity, a category only for a non-empty name, start and end the parsed times with their microseconds dropped, the description normalised and the tags as parsed |
| FactManager.EnforceFactMinDelta | nark/managers/fact.py:63-86 | no check for an ongoing fact or a zero minimum; otherwise the fact passes exactly when its delta is at least the minimum in seconds, and fails with ValueError |
| FactManager.MinDeltaBoundary | nark/managers/fact.py:63-86 | with a positive minimum a zero-length fact is refused and one lasting exactly the minimum passes; the clock plays no part once the fact has an end |
| FactManager.CheckRange | nark/managers/fact.py:217-229 | both bounds normalised, since first; with both present the range passes exactly when since is before until |
| FactManager.GetAllBoundsAgree | nark/managers/fact.py:217-275 | without a date bound the code as written and the corrected version agree; datetimes pass through and a range that does not move forward is refused |
| FactManager.VerifySinceAsWritten | nark/managers/fact.py:231-253 | fails exactly for a date or a value of another type; otherwise as the corrected version |
| FactManager.VerifyUntilAsWritten | nark/managers/fact.py:255-273 | fails exactly for a date (the missing `end_day_to_datetime`) or a value of another type; otherwise as the corrected version |
| FactManager.VerifySince | nark/managers/fact.py:231-253 | None stays None, a datetime passes, a date means its midnight, a time means that time today, keeping the time's UTC offset; any other type is the TypeError |
| FactManager.VerifyUntil | nark/managers/fact.py:255-273 | None stays None, a datetime passes, a date means the last second of the work day starting on it, a time means that time today, keeping the time's UTC offset; any other type is the TypeError |
| FactManager.GetAllBoundsAsWritten | nark/managers/fact.py:217-229 | a date `since` is the `combine` TypeError; after a usable `since`, a date `until` is the AttributeError |
| FactManager.GetAllBounds | nark/managers/fact.py:217-229 | the normalised bounds, since first; with both present `until` comes after `since`; a bound of another type is refused, and a missing bound never is |
| FactManager.AwareTimeAgainstNaive | nark/managers/fact.py:217-253 | an aware time of day as `since` against a naive datetime as `until` ends in the TypeError of the `<=` comparison |
| FactManager.OneDayByDate | nark/managers/fact.py:239-264 | a date bound is refused as written; the corrected version takes the day from midnight to the end of its work day |
| FactManager.StartingAtQuery | nark/managers/fact.py:727-741 | without a start, an error; otherwise the one live fact starting at the fact's start, or None, and an integrity error for several |
| FactManager.EndingAtQuery | nark/managers/fact.py:745-759 | the same for the fact ending at the fact's end |
| FactManager.Antecedent | nark/managers/fact.py:763-780 | fails iff the fact has neither time; otherwise the live fact starting last before the fact's start (or end), None iff there is none |
| FactManager.Subsequent | nark/managers/fact.py:784-801 | fails iff the fact has neither time; otherwise the live fact ending first after the fact's end (or start), None iff there is none |
| FactManager.Surrounding | nark/managers/fact.py:826-842 | the at most one live fact running across the moment, or an integrity error |
| FactManager.GetCurrentFact | nark/managers/fact.py:407-445 | the unique live fact without an end; the KeyError exactly when there is none, and the generic Exception for several |
| FactManager.HintedEnd | nark/managers/fact.py:370-386 | a TypeError exactly for a hint of another type; a datetime hint itself, `now` plus a timedelta hint, or `now` |
| FactManager.StopCurrentFact | nark/managers/fact.py:345-403 | a bad hint or a missing or repeated ongoing fact is refused; a start that is not a datetime, or of the other kind than the end, is the comparison TypeError; an end before the start is a ValueError; otherwise it succeeds exactly when `save`'s duration check passes, the ongoing fact ending at the hinted end with its microseconds dropped |
| ForcedInsert.Le | nark/managers/fact.py:624-644 | Python's `<=` on two fact times: it succeeds exactly when both are datetimes and otherwise raises the TypeError |
| ForcedInsert.ResolveClears | nark/managers/fact.py:617-709 | after resolution every edited conflict is deleted or no longer overlaps the fact, and a conflict left out of the result never overlapped it |
| ForcedInsert.ResolveKeys | nark/managers/fact.py:694-709 | at most two facts come out of one conflict; each keeps the conflict's key except the right-hand split, which has none and records the key it was split from; two come out only for a split |
| ForcedInsert.CullDuplicates | nark/managers/fact.py:711-719 | the loop keeps the first fact of each kind, as the culling function describes |
| ForcedInsert.CulledKinds | nark/managers/fact.py:711-719 | culling keeps every kind of fact present and adds nothing |
| ForcedInsert.CulledDistinct | nark/managers/fact.py:711-719 | no two kept facts are equal as `__eq__` sees them |
| ForcedInsert.CulledPair | nark/managers/fact.py:711-719 | an empty or one-fact list is kept; two facts that differ are both kept, in order |
| ForcedInsert.SplitsDistinct | nark/managers/fact.py:694-709 | the two parts of a split differ, so culling keeps both |
| ForcedInsert.ResolveCulled | nark/managers/fact.py:631 | resolution never yields two equal facts, so the culling step changes nothing |
| ForcedInsert.ResolveStartsBefore | nark/managers/fact.py:640-663 | edits the conflict in place; the new state and the result are exactly the starts-before resolution applied to the conflict as it was |
| ForcedInsert.ResolveEndsAfter | nark/managers/fact.py:665-688 | the same for the ends-after resolution |
| ForcedInsert.ResolveIsInside | nark/managers/fact.py:690-709 | two copies of the conflict: one ending at the fact's start and keeping the key, one starting at the fact's end without a key |
| ForcedInsert.ResolveSquash | nark/managers/fact.py:633-638 | succeeds exactly when the squash's checks pass; then the ongoing conflict ends where the fact ended, carries the dirty reasons, and the fact is deleted; on failure the fact is untouched |
| ForcedInsert.ResolveFactConflict | nark/managers/fact.py:617-631 | the squash when the fact has no start and the conflict no end, and otherwise the resolution chosen by the start and end comparisons, the fact unchanged |
| ForcedInsert.Paired | nark/managers/fact.py:613-614 | each edit paired with the original snapshot, and nothing else |
| ForcedInsert.SeenBefore | nark/managers/fact.py:608-610 | a key already seen belongs to a conflict already handled, since keys are unique |
| ForcedInsert.ResolveOverlapping | nark/managers/fact.py:600-615 | skips the fact itself and repeated keys; unless squashed the fact is unchanged, every edit is clear of it and traces back to its original, and every stored conflict overlapping it was handled |
| ForcedInsert.StartPerAntecedent | nark/managers/fact.py:549-572 | without an antecedent, the ValueError; an ended antecedent gives the new start, before the fact's end; an ongoing one, started before the fact's end, becomes the conflict to squash |
| ForcedInsert.EndPerSubsequent | nark/managers/fact.py:574-583 | the start of the subsequent fact, after the fact's start, or now with its microseconds dropped |
| ForcedInsert.AtEdge | nark/managers/fact.py:508-527 | every stored fact running across the edge time is in the result |
| ForcedInsert.During | nark/managers/fact.py:593-598 | only stored facts, and with both times every live fact strictly within the fact |
| ForcedInsert.EdgesFindOverlaps | nark/managers/fact.py:508-598 | for a fact with both times, the two edge queries and the query for facts strictly within it miss no live overlapping fact |
| ForcedInsert.DrawnFromRows | nark/managers/fact.py:600-615 | facts taken from the store keep the store's row properties and unique keys |
| ForcedInsert.ConflictAtStart | nark/managers/fact.py:508-572 | with a start, the edge query at the start; without one, the start is set from the antecedent, or the failure is passed on with the fact unchanged |
| ForcedInsert.ConflictAtEnd | nark/managers/fact.py:508-583 | with an end, the edge query at the end; without one, the end is set from the subsequent fact or now and no conflict is returned |
| ForcedInsert.InsertForcefully | nark/managers/fact.py:471-504 | the fact always ends up with an end; unless squashed no edit stands in its way; each edit traces back to a stored fact; with both times given, every live fact it overlaps was handled |
| ForcedInsert.OpenEndedOverRunningFact | nark/managers/fact.py:529-598 | a concrete case in which a fact given only a start, before a running fact, is ended at now and none of the queries finds the overlapping running fact |
| LegacyFactManager.LegacySave | hamster_lib/managers/fact.py:36-72 | refused exactly when the duration cannot be taken or is set and shorter than the minimum; a fact with any key is updated, one without a key and without an end becomes the temporary fact, the rest are added |
| LegacyFactManager.LegacySaveVersusNark | hamster_lib/managers/fact.py:56-64 | a zero-length fact passes the legacy check under any minimum while nark's refuses it under any positive one; with a minimum of 0 a fact ending before its start is refused by the legacy check and passed by nark's |
| LegacyFactManager.LegacyGetAllBounds | hamster_lib/managers/fact.py:201-237 | both bounds normalised; with two datetimes of the same kind, refused with the ValueError exactly when the end is not later than the start |
| LegacyFactManager.LegacySince | hamster_lib/managers/fact.py:200-215 | a date means that day at the configured `day_start`, refused when there is none; a value of another type is the TypeError; with `day_start` at midnight, the same as nark's corrected bound |
| LegacyFactManager.LegacyUntil | hamster_lib/managers/fact.py:217-231 | a date means the last second of the work day starting on it; a datetime passes; only a value of another type is refused |
| LegacyFactManager.LegacyBoundsAgree | hamster_lib/managers/fact.py:201-237 | the legacy checks equal nark's corrected ones whenever no date bound is given or the day starts at midnight |
| LegacyFactManager.LegacyStartPerAntecedent | hamster_lib/managers/fact.py:535-547 | on success the new start is a datetime before the fact's end |
| LegacyFactManager.LegacyEndPerSubsequent | hamster_lib/managers/fact.py:549-558 | on success the new end is a datetime after the fact's start |
| LegacyFactManager.LegacyEdgesVersusNark | hamster_lib/managers/fact.py:535-558 | with no later fact the legacy code refuses a fact without an end where nark ends it now; otherwise the two agree on the end; an ended antecedent gives both versions the same start |
| LegacyFactManager.LegacyResolveClears | hamster_lib/managers/fact.py:571-612 | every fact the resolution yields is out of the fact's way; only the split yields more than one |
| LegacyFactManager.LegacyResolve | hamster_lib/managers/fact.py:571-580 | starts that cannot be compared are the TypeError of `<=`; when the fact starts first, an end that is not a datetime on either side is the TypeError of `>=` |
| LegacyFactManager.LegacyResolveSplitsInside | hamster_lib/managers/fact.py:571-580 | two facts come back exactly when both facts have datetime times and the fact lies strictly inside the conflict |
| LegacyFactManager.LegacyResolveKeepsConflict | hamster_lib/managers/fact.py:582-612 | every fact yielded is the conflict with only its times, its deleted flag and its dirty reasons changed |
| LegacyFactManager.LegacySplit | hamster_lib/managers/fact.py:598-612 | two copies of the conflict: the first ends where the fact starts, the second starts where it ends, and nothing else but their dirty reasons changes |
| LegacyFactManager.LegacySplitKeepsKey | hamster_lib/managers/fact.py:602-612 | both halves of a split keep the conflict's key, unlike nark's later half |
| LegacyFactManager.LegacyTrimsLikeNark | hamster_lib/managers/fact.py:571-596 | on an ended conflict overlapping the fact, the same times and deletions as nark's resolution |
| LegacyFactManager.LegacySplitDropped | hamster_lib/managers/fact.py:497-612 | for a fact inside a conflict, the conflict object returned is left as it was and still overlaps the fact |
| LegacyFactManager.LegacyResolveConflict | hamster_lib/managers/fact.py:571-596 | the result is the legacy resolution of the conflict as it was, and the conflict object is left as that resolution says |
| LegacyFactManager.ResolveNext | hamster_lib/managers/fact.py:563-568 | one pass of the loop: its result is the legacy resolution of the next conflict as it was, the conflicts before it stay resolved and the ones after it untouched |
| LegacyFactManager.LegacyResolveOverlapping | hamster_lib/managers/fact.py:560-569 | succeeds only when every conflict came paired with a copy; then every conflict object ends up resolved against the fact |
| LegacyFactManager.LegacyInsertTail | hamster_lib/managers/fact.py:492-498 | the result is the conflicts list itself, each resolved object beside its own copy |
| Parsing.FindChar | nark/helpers/parsing.py:403 | the index of the first occurrence of the character, and None exactly when it is absent |
| Parsing.MustIndexActegorySep | nark/helpers/parsing.py:400-409 | the index of the first '@'; without one, ParserMissingSeparatorActivity exactly when the '@' is required, and -1 otherwise |
| Parsing.FirstSep | nark/helpers/parsing.py:298-300 | the alternative chosen is a listed separator that matches there, after a non-space and before whitespace or the end |
| Parsing.FirstSepNone | nark/helpers/parsing.py:298-300 | no alternative is chosen exactly when no separator matches there |
| Parsing.FirstItemSepFrom | nark/helpers/parsing.py:298-300 | the leftmost separator match at or after the position, and None exactly when there is none |
| Parsing.SplitItem | nark/helpers/parsing.py:390 | the two parts and the separator put back together give the text; the cut is at the leftmost match; None only when nothing matches |
| Parsing.SubFrom | nark/helpers/parsing.py:574 | removal never lengthens the text, and leaves it whole when nothing matches |
| Parsing.StripItemSeps | nark/helpers/parsing.py:574 | removing the separators never lengthens the text |
| Parsing.StripItemSepsUnsplit | nark/helpers/parsing.py:574 | a text the separator does not split comes through unchanged |
| Parsing.FirstWord | nark/helpers/parsing.py:201-204 | a separator word that matches between whitespace, or the certainty that none does |
| Parsing.DateSepAt | nark/helpers/parsing.py:331 | the date separator matching at the position, and None exactly when none of the four does |
| Parsing.FirstDateSepFrom | nark/helpers/parsing.py:333 | the leftmost date separator match at or after the position, and None exactly when there is none |
| Parsing.SplitDates | nark/helpers/parsing.py:333 | the text before the leftmost separator, the word, and the text after its closing whitespace; None only when no separator occurs |
| Parsing.SeparatorCheckAsWritten | nark/helpers/parsing.py:335-336 | passes exactly when nothing but whitespace precedes the separator and its word is listed as written, escapes included |
| Parsing.DateWordsStripped | nark/helpers/parsing.py:56 | stripping leaves each separator word as it is |
| Parsing.HyphenRangeFailsCheckAsWritten | nark/helpers/parsing.py:331-336 | a range written with ' - ' matches the separator and is split at the start, yet the check as written refuses it |
| Parsing.HyphenSplit | nark/helpers/parsing.py:333 | ' - ' followed by any text splits at the start with the word '-' |
| Parsing.HyphenRefused | nark/helpers/parsing.py:336 | the check as written refuses the word '-' |
| Parsing.HyphenAtStart | nark/helpers/parsing.py:331 | ' - ' at the head of a text matches as the separator '-' |
| Parsing.HyphenUnlisted | nark/helpers/parsing.py:56 | '-' is not one of the listed entries, which hold its escaped form |
| Parsing.SeparatorCheck | nark/helpers/parsing.py:335-336 | the intended check: on success the text after the separator |
| Parsing.SeparatorCheckPasses | nark/helpers/parsing.py:331-336 | whenever the separator matches at the start, the split cuts there and the intended check passes with the rest of the text |
| Parsing.DateWordStripped | nark/helpers/parsing.py:56 | stripping a separator word gives it back |
| Parsing.SpaceRun | nark/helpers/parsing.py:210-211 | the end of the run of whitespace: everything up to it is whitespace and what follows is not |
| Parsing.TagMatchLen | nark/helpers/parsing.py:206-219 | a match ends in a hash stamp followed by a character that is not whitespace |
| Parsing.FirstTagFrom | nark/helpers/parsing.py:518 | the leftmost tag match at or after the position, and None exactly when there is none |
| Parsing.SplitTagsFrom | nark/helpers/parsing.py:519 | at least one piece; one piece holding the rest when no tag follows, and otherwise the text before the next tag first |
| Parsing.SplitTags | nark/helpers/parsing.py:519 | one piece exactly when no tag matches, and then the whole text; otherwise the first piece is the text before the leftmost tag |
| Parsing.StripAll | nark/helpers/parsing.py:557-559 | one stripped tag per piece, in order |
| Parsing.StripAllTrimmed | nark/helpers/parsing.py:557-559 | every tag is free of surrounding whitespace and no longer than its piece |
| Parsing.StripAllIdempotent | nark/helpers/parsing.py:557-559 | stripping the tags again changes nothing |
| Parsing.HydrateIso8601 | nark/helpers/parsing.py:585-600 | raises ParserInvalidDatetimeException exactly when required and unreadable; otherwise a datetime, or None exactly when unreadable |
| Parsing.HydrateFriendly | nark/helpers/parsing.py:602-647 | the same contract over the friendly reader |
| Parsing.HydrateEither | nark/helpers/parsing.py:571-583 | a time already read is kept; otherwise a non-empty raw text with item separators removed is read as ISO 8601, then as a friendly time, then None |
| Parsing.DefaultsOk | nark/helpers/parsing.py:59 | the default separators and hash stamps are well formed |
| Parsing.RulesFor | nark/helpers/parsing.py:276-313 | an empty factoid becomes ('',) with an empty flat text; empty separators and hash stamps fall back to the defaults; the hint and leniency are kept; the rules are ready to parse |
| Parsing.FlatSplitsBack | nark/helpers/parsing.py:290 | when no token holds a space, splitting the flat text on spaces gives the tokens back |
| Parsing.FromRestStep | nark/helpers/parsing.py:468-489 | without a time at the head: ParserMissingDatetimeOneException for the first, ParserMissingDatetimeTwoException for the second unless it may be missing; an unreadable ISO 8601 time is ParserInvalidDatetimeException; otherwise the rest of the text |
| Parsing.EasyBothStep | nark/helpers/parsing.py:328-342 | a failure reading the first time is passed on; without a separator after it, ParserMissingDatetimeTwoException exactly when two are strictly required |
| Parsing.EasyStep | nark/helpers/parsing.py:315-326 | 'verify_none' reads no time and passes the flat text on; an unknown hint fails the assert |
| Parsing.LstripActivityStep | nark/helpers/parsing.py:491-502 | a category is expected exactly when there is an '@'; then the activity is the '@'-free text before the first one and the text splits around it; otherwise nothing changes |
| Parsing.DelimitedStep | nark/helpers/parsing.py:373-398 | fails exactly when the factoid has no '@'; otherwise the flat text is the part before the first '@', the '@', and the rest |
| Parsing.KnownStep | nark/helpers/parsing.py:413-435 | ParserMissingDatetimeTwoException exactly when two times are strictly required and no separator splits the text; on success the activity is untouched and 'verify_start' sets the start's raw text |
| Parsing.MagicStep | nark/helpers/parsing.py:437-466 | two strictly required and no separator is ParserMissingDatetimeTwoException; on success an activity was read |
| Parsing.LstripDatetimesStep | nark/helpers/parsing.py:359-371 | without an '@', ParserMissingSeparatorActivity; on success the text after the first '@' |
| Parsing.HardStep | nark/helpers/parsing.py:344-357 | an unknown hint raises Exception; a timed hint needs an '@', and on success a category is expected |
| Parsing.SkipTagsStep | nark/helpers/parsing.py:546-555 | the whole remainder becomes the description and nothing else changes |
| Parsing.CatStep | nark/helpers/parsing.py:506-525 | without a separator, the whole remainder is the description; with one, the text after it is the description and the category runs up to the first tag marker that follows whitespace, the tags coming after |
| Parsing.TagsStep | nark/helpers/parsing.py:527-544 | without a separator, the whole remainder is the description; the assert fails exactly when a word precedes a tag; text opening with a tag gives the tags; text without a tag joins the description |
| Parsing.HydrateStep | nark/helpers/parsing.py:563-569 | only the two times' values change, and a time already read is kept |
| Parsing.ParseStep | nark/helpers/parsing.py:249-267 | a successful parse has an activity; an unknown hint fails the easy reading's assert from a blank result |
| Parsing.DissectStep | nark/helpers/parsing.py:225-243 | the state of the parse; success exactly when the parse succeeds; a ParserException is returned exactly when lenient, raised only when not, and any other exception propagates |
| Parsing.Tidy | nark/helpers/parsing.py:682-684 | stripped, no longer than the text, and '' when missing or empty |
| Parsing.TimeOrNone | nark/helpers/parsing.py:680-681 | a time that is set is kept, and any other becomes None |
| Parsing.Normalised | nark/helpers/parsing.py:679-686 | times are set or None; names and description are stripped, '' when missing; missing tags become [], and tags present are those parsed |
| Parsing.FactoidSpec | nark/helpers/parsing.py:673-687 | a lenient parse never raises a ParserException; when no error is returned, an activity was read |
| Parsing.NoTimes | nark/helpers/parsing.py:249-267 | with 'verify_none' both times stay empty; the parse succeeds exactly when the factoid holds an '@' that does not open it, and the activity is the text before it; an opening '@' raises ParserMissingActivityException |
| Parsing.NoTimesIgnoresOracle | nark/helpers/parsing.py:249-267 | with 'verify_none' the parse does not depend on the time readers |
| Parsing.ParseNeverBadHint | nark/helpers/parsing.py:344-357 | the 'Unexpected time_hint' exception of the hard reading is never raised through the parse |
| Parsing.EasyBothSecondMissing | nark/helpers/parsing.py:328-342 | a separator with no time after it is accepted exactly when two times are strictly required (the code passes `ok_if_missing=strictly_two`), and otherwise raises ParserMissingDatetimeTwoException |
| Parsing.TaggedTextAsserts | nark/helpers/parsing.py:527-544 | "a #b: c" with no times reaches the `assert False` the code marks as impossible |
| Parsing.Parser.constructor | nark/helpers/parsing.py:112-113 | every attribute reset |
| Parsing.Parser.ResetRules | nark/helpers/parsing.py:119-129 | the rules reset, the result kept |
| Parsing.Parser.ResetResult | nark/helpers/parsing.py:131-142 | the result reset, the rules kept |
| Parsing.Parser.Reset | nark/helpers/parsing.py:115-117 | both reset |
| Parsing.Parser.SetupRules | nark/helpers/parsing.py:276-313 | the rules are those `RulesFor` describes and the result is blank |
| Parsing.Parser.DissectRawFact | nark/helpers/parsing.py:225-243 | the new state and the returned error are those `DissectStep` describes |
| Parsing.Parser.Parse | nark/helpers/parsing.py:249-267 | the new state and outcome are those `ParseStep` describes |
| Parsing.Parser.ParseDatetimesEasy | nark/helpers/parsing.py:315-326 | the new state and outcome are those `EasyStep` describes |
| Parsing.Parser.ParseDatetimesEasyBoth | nark/helpers/parsing.py:328-342 | the new state and outcome are those `EasyBothStep` describes |
| Parsing.Parser.MustParseDatetimeFromRest | nark/helpers/parsing.py:468-489 | the new state and outcome are those `FromRestStep` describes |
| Parsing.Parser.ParseDatetimesHard | nark/helpers/parsing.py:344-357 | the new state and outcome are those `HardStep` describes |
| Parsing.Parser.LstripDatetimes | nark/helpers/parsing.py:359-371 | the new state and outcome are those `LstripDatetimesStep` describes |
| Parsing.Parser.LstripDatetimesDelimited | nark/helpers/parsing.py:373-398 | the new state and outcome are those `DelimitedStep` describes |
| Parsing.Parser.MustParseDatetimesKnown | nark/helpers/parsing.py:413-435 | the new state and outcome are those `KnownStep` describes |
| Parsing.Parser.MustParseDatetimesMagic | nark/helpers/parsing.py:437-466 | the new state and outcome are those `MagicStep` describes |
| Parsing.Parser.LstripActivity | nark/helpers/parsing.py:491-502 | the new state and results are those `LstripActivityStep` describes |
| Parsing.Parser.ParseCatAndRemainder | nark/helpers/parsing.py:506-525 | the new state is the one `CatStep` describes |
| Parsing.Parser.ParseTagsAndRemainder | nark/helpers/parsing.py:527-544 | the new state and outcome are those `TagsStep` describes |
| Parsing.Parser.SkipTagsNoSep | nark/helpers/parsing.py:546-555 | the new state is the one `SkipTagsStep` describes |
| Parsing.Parser.ConsumeTags | nark/helpers/parsing.py:557-559 | the tags become the stripped pieces and nothing else changes |
| Parsing.Parser.HydrateDatetimes | nark/helpers/parsing.py:563-569 | the new state is the one `HydrateStep` describes |
| Parsing.ParseFactoid | nark/helpers/parsing.py:673-687 | the result is the one `FactoidSpec` describes |

## Left out

- SQL backends, migrations, report writers, the store and manager setup, the declarative settings table and the reflection helpers: they wrap libraries outside this model (SQLAlchemy, sqlalchemy-migrate, csv, icalendar, xml.dom, app dirs).
- The backend side of the fact managers (`_add`, `_update`, `remove`, `get`, `_get_all`, `get_today`, `cancel_current_fact`) and the legacy temporary-fact pickle file: their effect is storage I/O. The queries `insert_forcefully` relies on are functions over an in-memory list of stored facts.
- The clock, the environment and `sys.argv` are parameters (`now`, `env`, `argv`); `store.config` values (`fact_min_delta`, `day_start`) are arguments.
- Time readers (`HamsterTimeSpec.discern`, `iso8601.parse_date`, `dateparser.parse`) are the caller-supplied `TimeOracle`; the time-spec regex and `local_tz`, which only those readers use, are not part of this model.
- `Parser.hydrate_datetime_friendly`'s `skip_dateparser` branch: nothing ever sets that flag.
- Item separators and hash stamps are taken as literal characters. The code splices them into a regular expression, so a separator holding regex syntax would behave differently there.
- `os.linesep` is taken as "\n".
- The Parser's attributes are grouped into two records (rules and result). Before `setup_rules` the rule fields hold empty values rather than None.
- `Parser.__str__`, the text of exception messages and all logger calls: they only describe, they decide nothing.
- `gettext` is the identity. nark/helpers/time.py, nark/helpers/parsing.py, nark/items/fact.py and nark/managers/fact.py call `_()` without importing it, so the model assumes a builtin `_` has been installed; without one each such call is a NameError, raised before its argument is formatted. The IndexError listed under Findings for nark/helpers/time.py:98-103 rests on that assumption too.
- Terminal rendering: `friendly_str`, `tagnames*`, `time_of_day_*`, colouring in `actegory_string` and `facts_diff`.
- The pedantic branch of `get_string_delta` and its float-based `PedanticTimedelta` rendering. An unknown format, which falls back to that rendering, is not modelled.
- `Fact.delta` of an ongoing fact reads the clock; `now` is passed in.
- `ConfigDecorator._find_root`: sections are addressed by their path from the root, so there is no parent link to climb. `__getattr__` and `__setitem__` only hand on to `_find_one_object` (`Inify.FindOneObject`) and the value setter.
- Python's `str.lower`/`str.upper` are modelled on the ASCII letters only. `str.strip` and `str.splitlines` follow Python's own whitespace and line-break sets.
- Inify.UpdateSections, Inify.UpdateSubsection, Inify.DownloadSections and Inify.DownloadSection: a plain value found in the config dict where a section is expected always fails with `NotADict`. Python instead recurses with that value. For `update_from_dict`, an integer raises TypeError at the first `in` test. A string is searched for substrings and raises TypeError only when a section or setting name occurs in it. A section with no subsections and no settings accepts the value silently. `download_to_dict` behaves the same way: it raises TypeError when it assigns into the value, and keeps the value silently when the section has nothing to write.
- Parsing.EasyBothStep, Parsing.Parser.ParseDatetimesEasyBoth, Parsing.EasyBothSecondMissing and Parsing.ParseFactoid: these use the corrected separator check. A range whose separator is `-` or `|` therefore parses, where the code as written raises an AssertionError that escapes even lenient parsing. The as-written check is `SeparatorCheckAsWritten`, listed under Findings.
- ForcedInsert.InsertForcefully: requires the new fact's times to be None or naive datetimes, as stored rows are. An aware or string time, and the TypeError Python raises when it compares such a time with a stored one, are not modelled; those comparisons run in the SQL backend's queries, which are outside this model.
- FactManager.RowOk and ForcedInsert.Moments: stored facts are taken to hold naive times only, since the backend stores naive datetimes; aware times in stored rows are not modelled.
- KeyChainedVal.Apply and PyValue.ToInt: Python floats are not modelled; a float is a value of another kind. So an int setting given a float fails with the conversion's error, where Python's `int()` truncates it toward zero.
- LegacyFactManager.LegacySave: hamster_lib's own Fact class is not part of this model; its `delta` is taken to be nark's (`FactItem.RecDelta`).
- LegacyFactManager.LegacyUntil: hamster_lib's own `end_day_to_datetime` is not part of this model; nark's `day_end_datetime` stands in for it.
- PyText.IsDigit: matches the ASCII digits only, while Python's `\d` in a `str` pattern also matches other Unicode decimal digits.
- FactItem.Fact.Squash and FactItem.Fact.AbsorbActivityAndTags: require `other != this`. Squashing a fact into itself, which the code's assertions do not exclude, is not modelled; the model's frames keep the two objects apart.
- FactItem.Fact.TagsReplace: the order of the stored list follows the arguments, while Python stores `set` order, which is unspecified.
- Parsing.ParseStep: its own contract states only the activity on success and the unknown-hint case; the full behaviour is stated through the step functions and the lemmas `NoTimes`, `ParseNeverBadHint` and `TaggedTextAsserts`.
- Parsing.StripItemSeps: states only that the text never grows, plus `StripItemSepsUnsplit` for a text with no separator; which characters are removed is given by its definition.
- Parsing.HydrateFriendly: states the contract over the friendly reader, whose results are the oracle's.
- Parsing.MagicStep and Parsing.KnownStep: state the error cases and the activity, not every field each time hint sets.
- Parsing.LstripDatetimesStep: states the missing '@' error and the returned text, not which fields each hint sets.
- Parsing.HardStep: states the unknown-hint and missing '@' cases and the category flag, not the fields each hint sets.
- LegacyFactManager.LegacyStartPerAntecedent and LegacyFactManager.LegacyEndPerSubsequent: state only what a success gives; their failures are compared with nark's in `LegacyEdgesVersusNark`.
- ForcedInsert.AtEdge: states that nothing surrounding the edge is missed, not the single-fact warning path, which only logs.
- FormatText.FormatValueTruncate: with a width of 0, 1 or 2 the result is longer than the width (`NarrowWidthOverflows`); it is modelled as written.

## Findings

| source | as written | input that shows it | evidently intended | confidence | as-written member | corrected member |
|---|---|---|---|---|---|---|
| nark/helpers/time.py:98-103 | the refusal's message has a `{}` placeholder but is formatted with a keyword argument only, so `str.format` raises IndexError | any truthy value that is not a string or a datetime, such as the integer 1 | a TypeError naming the value's type | not executed | TimeHelpers.MustBeDatetimeOrRelativeAsWritten, TimeHelpers.IntegerRaisesIndexError | TimeHelpers.MustBeDatetimeOrRelative |
| nark/config/inify.py:103-109 | the recursive `download_to_dict` call passes no flags, so subsections are dumped with the defaults | `skip_unset` set, an unset visible setting in a subsection: it is written with its default | the caller's `skip_unset`, `use_defaults` and `add_hidden` reach every subsection | not executed | Inify.DownloadToDictAsWritten, Inify.FlagsNotForwarded | Inify.DownloadToDict, Inify.SkipUnsetWritesNothing |
| nark/config/inify.py:252-260 | `setdefault` with a dotted name whose setting is new registers it among the root's settings | `setdefault('a.b', v)` where section `a` has no `b`: afterwards `a.b` is still not found | the setting is registered in the section the dotted name reaches | not executed | Inify.Config.SetSettingAsWritten, Inify.RootRegistrationUnreachable, Inify.DottedSetdefaultAsWritten | Inify.Config.SetSetting, Inify.SectionRegistrationFound, Inify.DottedSetdefault |
| nark/config/inify.py:233-238 | the too-few-arguments message calls `lens`, which is not defined | `setdefault()` with one argument: NameError | the TypeError the message describes | not executed | Inify.Config.SetdefaultAsWritten | Inify.Config.Setdefault |
| nark/managers/fact.py:239-243, 263-264 | a date `since` is combined with the `day_start` string, and a date `until` calls the missing `end_day_to_datetime` | `get_all(since=date, until=date)`: TypeError for the since bound, AttributeError for the until bound | the day runs from midnight to the end of its work day | not executed | FactManager.GetAllBoundsAsWritten, FactManager.OneDayByDate | FactManager.GetAllBounds, FactManager.GetAllBoundsAgree |
| nark/items/fact.py:866-875 | `create_from_parsed_fact` calls `time_helpers.validate_start_end_range`, which nark/helpers/time.py does not define | any parsed fact, such as activity 'coding' with no times: AttributeError | the range check `must_not_start_after_end` | not executed | FactItem.CreateFromParsedFactAsWritten, FactItem.ParsedFactAlwaysRefused | FactItem.CreateFromParsedFact |
| nark/helpers/parsing.py:56, 335-336 | the separator check compares the matched word with a list holding the escaped forms `\-` and `\|` | a range written 'A - B': the separator matches, then the assert fails on '-' | the check accepts every separator the regular expression is built from | not executed | Parsing.SeparatorCheckAsWritten, Parsing.HyphenRangeFailsCheckAsWritten | Parsing.SeparatorCheck, Parsing.SeparatorCheckPasses |
| hamster_lib/managers/fact.py:497-498, 598-612 | `resolve_overlapping`'s result is dropped and the conflicts list is returned, so a split's two halves are lost | a new fact strictly inside a stored fact: the stored fact comes back unchanged and still overlapping | the halves of the split are returned as edits, as nark does | not executed | LegacyFactManager.LegacySplitDropped, LegacyFactManager.LegacyInsertTail | ForcedInsert.ResolveIsInside, ForcedInsert.InsertForcefully |
