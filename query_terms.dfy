/** The bag of options a `get_all` query is configured with
    (nark/managers/query_terms.py). The object stores its arguments once and
    derives a few views from them; it is a value here. */
module QueryTerms {
  import opened Wrappers
  import opened Clock

  /** An activity or category restriction: `False` for none, `None` for items
      without one, or a named item. */
  datatype ItemRef = NoFilter | Unassigned | Named(name: string)

  datatype QueryTerms = QueryTerms(
    raw: bool,
    includeStats: Option<bool>,
    countResults: bool,
    key: Option<int>,
    since: Option<DateTime>,
    until: Option<DateTime>,
    endless: bool,
    excludeOngoing: Option<bool>,
    partial: bool,
    deleted: bool,
    searchTerm: Option<string>,
    activity: ItemRef,
    matchActivities: seq<ItemRef>,
    category: ItemRef,
    matchCategories: seq<ItemRef>,
    groupActivity: bool,
    groupCategory: bool,
    groupTags: bool,
    groupDays: bool,
    sortCols: Option<seq<string>>,
    sortOrders: seq<string>,
    limit: Option<int>,
    offset: Option<int>)

  /** The statistics columns a query can be sorted on. */
  const StatColumns: set<string> := {"usage", "time", "day"}

  /** `setup_terms` called without arguments: every option off or empty. */
  function Defaults(): (q: QueryTerms)
    ensures !q.raw && q.includeStats.None? && !q.countResults && q.key.None?
    ensures q.since.None? && q.until.None? && !q.endless && q.excludeOngoing.None?
    ensures !q.partial && !q.deleted && q.searchTerm.None?
    ensures q.activity == NoFilter && q.matchActivities == [] && q.category == NoFilter && q.matchCategories == []
    ensures !q.groupActivity && !q.groupCategory && !q.groupTags && !q.groupDays
    ensures q.sortCols.None? && q.sortOrders == [] && q.limit.None? && q.offset.None?
  {
    QueryTerms(false, None, false, None, None, None, false, None, false, false, None,
      NoFilter, [], NoFilter, [], false, false, false, false, None, [], None, None)
  }

  /** The restrictions of a list that are real ones, in their order. */
  function Restrictions(refs: seq<ItemRef>): (r: seq<ItemRef>)
    ensures forall x :: x in r <==> x in refs && x != NoFilter
    ensures |r| <= |refs|
    ensures NoFilter !in refs ==> r == refs
  {
    if refs == [] then []
    else if refs[0] == NoFilter then Restrictions(refs[1..])
    else [refs[0]] + Restrictions(refs[1..])
  }

  /** `activities`: the listed activities followed by the single one, with the
      `False` placeholders left out. */
  function Activities(q: QueryTerms): (r: seq<ItemRef>)
    ensures forall x :: x in r <==> (x in q.matchActivities || x == q.activity) && x != NoFilter
    ensures q.activity != NoFilter ==> |r| > 0 && r[|r| - 1] == q.activity
  {
    RestrictionsAppend(q.matchActivities, q.activity);
    Restrictions(q.matchActivities + [q.activity])
  }

  /** `categories`: the same for categories. */
  function Categories(q: QueryTerms): (r: seq<ItemRef>)
    ensures forall x :: x in r <==> (x in q.matchCategories || x == q.category) && x != NoFilter
    ensures q.category != NoFilter ==> |r| > 0 && r[|r| - 1] == q.category
  {
    RestrictionsAppend(q.matchCategories, q.category);
    Restrictions(q.matchCategories + [q.category])
  }

  lemma {:induction false} RestrictionsAppend(refs: seq<ItemRef>, last: ItemRef)
    ensures Restrictions(refs + [last]) == Restrictions(refs) + (if last == NoFilter then [] else [last])
  {
    if refs != [] {
      assert (refs + [last])[1..] == refs[1..] + [last];
      RestrictionsAppend(refs[1..], last);
    } else {
      assert refs + [last] == [last];
    }
  }

  /** `is_grouped`: whether any of the four group-by options is on. */
  function IsGrouped(q: QueryTerms): (r: bool)
    ensures r <==> q.groupActivity || q.groupCategory || q.groupTags || q.groupDays
  {
    q.groupActivity || q.groupCategory || q.groupTags || q.groupDays
  }

  /** `set(None)` raises TypeError. */
  datatype QueryTermsError = NoSortColumns

  /** `sorts_on_stat`: which sort columns are statistics columns. Without any
      sort columns set (the default) the `set()` call raises. */
  function SortsOnStat(q: QueryTerms): (r: Result<set<string>, QueryTermsError>)
    ensures r.Failure? <==> q.sortCols.None?
    ensures r.Success? ==> forall c :: c in r.value <==> c in q.sortCols.value && c in StatColumns
  {
    match q.sortCols
    case None => Failure(NoSortColumns)
    case Some(cols) => Success(set c | c in cols && c in StatColumns)
  }

  /** Fresh terms restrict nothing, group nothing, and cannot be asked about
      statistics sorting. */
  lemma DefaultsRestrictNothing()
    ensures Activities(Defaults()) == [] && Categories(Defaults()) == []
    ensures !IsGrouped(Defaults())
    ensures SortsOnStat(Defaults()).Failure?
  {
    assert [] + [NoFilter] == [NoFilter];
  }
}
