/** The query engine: the filter pipeline that `fetchEvents` runs over the bundled
    event list, the helpers it uses for date ranges, and the record shapes of the
    auxiliary lists (categories, authorities, information systems, suggestions). */
module EventsApi {
  import opened Wrappers
  import opened Seqs
  import opened Text
  import opened Time
  import opened EventTypes

  datatype Category = Category(id: int, nazev: string, count: int)
  datatype Urad = Urad(id: string, nazev: string)
  datatype IsvsSystem = IsvsSystem(id: string, zkratka: string, nazev: string)
  datatype SearchSuggestion = SearchSuggestion(id: string, labelText: string, count: int)

  /** The `ovm` / `isvs` filter fields: absent, one id, or a list of ids. */
  datatype IdFilter = Absent | One(id: string) | Many(ids: seq<string>)

  /** The API-level filter object. Every optional string field is only ever tested
      for truthiness, so an absent field and the empty string are the same here and
      both are written "". */
  datatype ApiFilters = ApiFilters(
    search: string,
    category: string,
    ovm: IdFilter,
    isvs: IdFilter,
    dateFrom: string,
    dateTo: string,
    dateFilter: Option<string>)

  /** A closed interval of instants `[start, end]`. */
  datatype Range = Range(start: int, end: int)

  /** The ids an `ovm`/`isvs` field constrains to. A single string is a one-element
      list, except the empty string, which is falsy and so imposes nothing. An empty
      list is truthy but also imposes nothing. */
  function IdList(f: IdFilter): (ids: seq<string>)
    ensures f.Absent? ==> ids == []
    ensures f.One? ==> ids == if f.id == "" then [] else [f.id]
    ensures f.Many? ==> ids == f.ids
  {
    match f
    case Absent => []
    case One(id) => if id == "" then [] else [id]
    case Many(ids) => ids
  }

  const PLACEHOLDER_PREFIX: string := "Událost #"

  /** The title matches `^Událost #\d+\.0$`: the prefix, one or more ASCII digits,
      then ".0" at the very end. */
  predicate IsPlaceholderTitle(t: string) {
    && |t| >= |PLACEHOLDER_PREFIX| + 3
    && StartsWith(t, PLACEHOLDER_PREFIX)
    && t[|t| - 2..] == ".0"
    && AllDigits(t[|PLACEHOLDER_PREFIX|..|t| - 2])
  }

  /** `field && field.toLowerCase().includes(term)`. */
  predicate FieldMatches(field: string, term: string) {
    field != "" && Contains(Lower(field), term)
  }

  /** The free-text test: the term occurs in one of the six searched fields. */
  predicate MatchesSearch(e: Event, term: string) {
    || FieldMatches(e.nazevUdalosti, term)
    || FieldMatches(e.popisUdalosti, term)
    || FieldMatches(e.organizator, term)
    || FieldMatches(e.mistoKonani, term)
    || FieldMatches(e.kategorieNazev, term)
    || FieldMatches(e.zkratkaInformacnihoSystemu, term)
  }

  /** `isDateInRange`: a non-empty start that parses and lies in `[start, end]`,
      both ends included. */
  predicate IsDateInRange(eventDate: string, r: Range, parse: Parser) {
    eventDate != "" && parse(eventDate).Some? && r.start <= parse(eventDate).value <= r.end
  }

  /** `getDateRange`: the interval of a symbolic period (today, a Sunday-started week,
      this month, this year), or `None` for any other token. */
  function GetDateRange(filter: string, c: Clock): (r: Option<Range>)
    ensures r.Some? <==> filter in ["today", "week", "month", "year"]
    ensures filter == "today" ==> r.value.start == c.today && r.value.end - r.value.start == DAY_MS
    ensures filter == "week" ==>
      r.value.start == c.today - c.weekday * DAY_MS && r.value.end - r.value.start == 7 * DAY_MS
    ensures filter == "month" ==> r.value == Range(c.monthStart, c.nextMonthStart)
    ensures filter == "year" ==> r.value == Range(c.yearStart, c.nextYearStart)
  {
    match filter
    case "today" => Some(Range(c.today, c.today + DAY_MS))
    case "week" =>
      var weekStart := c.today - c.weekday * DAY_MS;
      Some(Range(weekStart, weekStart + 7 * DAY_MS))
    case "month" => Some(Range(c.monthStart, c.nextMonthStart))
    case "year" => Some(Range(c.yearStart, c.nextYearStart))
    case _ => None
  }

  /** The symbolic-period branch runs: `dateFilter` is truthy and not 'custom'. */
  predicate SymbolicActive(f: ApiFilters) {
    f.dateFilter.Some? && f.dateFilter.value != "" && f.dateFilter.value != "custom"
  }

  /** The from/to test of the custom branch, with JavaScript's NaN comparisons: an
      empty start is rejected, and a bound only rejects when both it and the start
      parse. `dateTo` is widened to the end of its day. */
  predicate WithinCustomRange(e: Event, dateFrom: string, dateTo: string, parse: Parser) {
    && e.datumZacatek != ""
    && !(dateFrom != "" && Less(parse(e.datumZacatek), parse(dateFrom)))
    && !(dateTo != "" && Less(EndOfDayOpt(parse(dateTo)), parse(e.datumZacatek)))
  }

  // One predicate per stage of the pipeline; each holds trivially when its filter is
  // inactive.

  predicate SearchOk(e: Event, f: ApiFilters) {
    f.search == "" || MatchesSearch(e, Lower(f.search))
  }

  predicate CategoryOk(e: Event, f: ApiFilters) {
    f.category == "" || e.kategorieNazev == f.category
  }

  predicate OvmOk(e: Event, f: ApiFilters) {
    IdList(f.ovm) == [] || e.idOrganuVerejneMoci in IdList(f.ovm)
  }

  predicate IsvsOk(e: Event, f: ApiFilters) {
    IdList(f.isvs) == [] || e.zkratkaInformacnihoSystemu in IdList(f.isvs)
  }

  predicate DateOk(e: Event, f: ApiFilters, c: Clock, parse: Parser) {
    if SymbolicActive(f) then
      match GetDateRange(f.dateFilter.value, c)
      case None => true
      case Some(r) => IsDateInRange(e.datumZacatek, r, parse)
    else if f.dateFrom != "" || f.dateTo != "" then
      WithinCustomRange(e, f.dateFrom, f.dateTo, parse)
    else
      true
  }

  /** The conjunction of the first `k` stages. */
  predicate KeepUpTo(e: Event, f: ApiFilters, c: Clock, parse: Parser, k: nat) {
    && (k >= 1 ==> !IsPlaceholderTitle(e.nazevUdalosti))
    && (k >= 2 ==> SearchOk(e, f))
    && (k >= 3 ==> CategoryOk(e, f))
    && (k >= 4 ==> OvmOk(e, f))
    && (k >= 5 ==> IsvsOk(e, f))
    && (k >= 6 ==> DateOk(e, f, c, parse))
  }

  /** A record survives the query: it is not a placeholder and passes every filter. */
  predicate Keep(e: Event, f: ApiFilters, c: Clock, parse: Parser) {
    KeepUpTo(e, f, c, parse, 6)
  }

  /** The reference definition of the query: one pass selecting the kept records. */
  function Query(store: seq<Event>, f: ApiFilters, c: Clock, parse: Parser): seq<Event> {
    Filter(store, Kept(f, c, parse))
  }

  /** `Keep` as a value `Filter` can take. */
  function Kept(f: ApiFilters, c: Clock, parse: Parser): Event -> bool {
    (e: Event) => Keep(e, f, c, parse)
  }

  /** The selector of the first `k` stages, as a value `Filter` can take. */
  function UpTo(f: ApiFilters, c: Clock, parse: Parser, k: nat): Event -> bool {
    (e: Event) => KeepUpTo(e, f, c, parse, k)
  }

  // The stage selectors, as `fetchEvents` passes them to `.filter`.

  function NotPlaceholder(): Event -> bool {
    (e: Event) => !IsPlaceholderTitle(e.nazevUdalosti)
  }

  function SearchStage(searchTerm: string): Event -> bool {
    (e: Event) => MatchesSearch(e, searchTerm)
  }

  function CategoryStage(category: string): Event -> bool {
    (e: Event) => e.kategorieNazev == category
  }

  function OvmStage(ids: seq<string>): Event -> bool {
    (e: Event) => e.idOrganuVerejneMoci in ids
  }

  function IsvsStage(ids: seq<string>): Event -> bool {
    (e: Event) => e.zkratkaInformacnihoSystemu in ids
  }

  function PeriodStage(r: Range, parse: Parser): Event -> bool {
    (e: Event) => IsDateInRange(e.datumZacatek, r, parse)
  }

  function CustomStage(dateFrom: string, dateTo: string, parse: Parser): Event -> bool {
    (e: Event) => WithinCustomRange(e, dateFrom, dateTo, parse)
  }

  /** Applying one more stage to the result of the first `k` stages. */
  lemma NextStage(store: seq<Event>, f: ApiFilters, c: Clock, parse: Parser, k: nat, stage: Event -> bool)
    requires forall e :: KeepUpTo(e, f, c, parse, k + 1) == (KeepUpTo(e, f, c, parse, k) && stage(e))
    ensures Filter(Filter(store, UpTo(f, c, parse, k)), stage) == Filter(store, UpTo(f, c, parse, k + 1))
  {
    FilterFilter(store, UpTo(f, c, parse, k), stage, UpTo(f, c, parse, k + 1));
  }

  /** A stage whose filter is inactive adds nothing. */
  lemma SkipStage(store: seq<Event>, f: ApiFilters, c: Clock, parse: Parser, k: nat)
    requires forall e :: KeepUpTo(e, f, c, parse, k + 1) == KeepUpTo(e, f, c, parse, k)
    ensures Filter(store, UpTo(f, c, parse, k)) == Filter(store, UpTo(f, c, parse, k + 1))
  {
    FilterCongruent(store, UpTo(f, c, parse, k), UpTo(f, c, parse, k + 1));
  }

  // One lemma per stage of `fetchEvents`: what the stage does to the result of the
  // stages before it.

  lemma PlaceholderStep(store: seq<Event>, f: ApiFilters, c: Clock, parse: Parser)
    ensures Filter(store, NotPlaceholder()) == Filter(store, UpTo(f, c, parse, 1))
  {
    FilterCongruent(store, NotPlaceholder(), UpTo(f, c, parse, 1));
  }

  lemma SearchStep(store: seq<Event>, f: ApiFilters, c: Clock, parse: Parser)
    ensures f.search != "" ==>
      Filter(Filter(store, UpTo(f, c, parse, 1)), SearchStage(Lower(f.search))) == Filter(store, UpTo(f, c, parse, 2))
    ensures f.search == "" ==> Filter(store, UpTo(f, c, parse, 1)) == Filter(store, UpTo(f, c, parse, 2))
  {
    if f.search != "" {
      NextStage(store, f, c, parse, 1, SearchStage(Lower(f.search)));
    } else {
      SkipStage(store, f, c, parse, 1);
    }
  }

  lemma CategoryStep(store: seq<Event>, f: ApiFilters, c: Clock, parse: Parser)
    ensures f.category != "" ==>
      Filter(Filter(store, UpTo(f, c, parse, 2)), CategoryStage(f.category)) == Filter(store, UpTo(f, c, parse, 3))
    ensures f.category == "" ==> Filter(store, UpTo(f, c, parse, 2)) == Filter(store, UpTo(f, c, parse, 3))
  {
    if f.category != "" {
      NextStage(store, f, c, parse, 2, CategoryStage(f.category));
    } else {
      SkipStage(store, f, c, parse, 2);
    }
  }

  lemma OvmStep(store: seq<Event>, f: ApiFilters, c: Clock, parse: Parser)
    ensures |IdList(f.ovm)| > 0 ==>
      Filter(Filter(store, UpTo(f, c, parse, 3)), OvmStage(IdList(f.ovm))) == Filter(store, UpTo(f, c, parse, 4))
    ensures |IdList(f.ovm)| == 0 ==> Filter(store, UpTo(f, c, parse, 3)) == Filter(store, UpTo(f, c, parse, 4))
  {
    if |IdList(f.ovm)| > 0 {
      NextStage(store, f, c, parse, 3, OvmStage(IdList(f.ovm)));
    } else {
      SkipStage(store, f, c, parse, 3);
    }
  }

  lemma IsvsStep(store: seq<Event>, f: ApiFilters, c: Clock, parse: Parser)
    ensures |IdList(f.isvs)| > 0 ==>
      Filter(Filter(store, UpTo(f, c, parse, 4)), IsvsStage(IdList(f.isvs))) == Filter(store, UpTo(f, c, parse, 5))
    ensures |IdList(f.isvs)| == 0 ==> Filter(store, UpTo(f, c, parse, 4)) == Filter(store, UpTo(f, c, parse, 5))
  {
    if |IdList(f.isvs)| > 0 {
      NextStage(store, f, c, parse, 4, IsvsStage(IdList(f.isvs)));
    } else {
      SkipStage(store, f, c, parse, 4);
    }
  }

  lemma PeriodStep(store: seq<Event>, f: ApiFilters, c: Clock, parse: Parser)
    requires SymbolicActive(f)
    ensures GetDateRange(f.dateFilter.value, c).Some? ==>
      Filter(Filter(store, UpTo(f, c, parse, 5)), PeriodStage(GetDateRange(f.dateFilter.value, c).value, parse))
        == Filter(store, UpTo(f, c, parse, 6))
    ensures GetDateRange(f.dateFilter.value, c).None? ==>
      Filter(store, UpTo(f, c, parse, 5)) == Filter(store, UpTo(f, c, parse, 6))
  {
    var r := GetDateRange(f.dateFilter.value, c);
    if r.Some? {
      NextStage(store, f, c, parse, 5, PeriodStage(r.value, parse));
    } else {
      SkipStage(store, f, c, parse, 5);
    }
  }

  lemma CustomStep(store: seq<Event>, f: ApiFilters, c: Clock, parse: Parser)
    requires !SymbolicActive(f)
    ensures f.dateFrom != "" || f.dateTo != "" ==>
      Filter(Filter(store, UpTo(f, c, parse, 5)), CustomStage(f.dateFrom, f.dateTo, parse))
        == Filter(store, UpTo(f, c, parse, 6))
    ensures f.dateFrom == "" && f.dateTo == "" ==>
      Filter(store, UpTo(f, c, parse, 5)) == Filter(store, UpTo(f, c, parse, 6))
  {
    if f.dateFrom != "" || f.dateTo != "" {
      var stage := CustomStage(f.dateFrom, f.dateTo, parse);
      forall e ensures KeepUpTo(e, f, c, parse, 6) == (KeepUpTo(e, f, c, parse, 5) && stage(e)) {
        CustomDateOk(e, f, c, parse);
      }
      NextStage(store, f, c, parse, 5, stage);
    } else {
      forall e ensures KeepUpTo(e, f, c, parse, 6) == KeepUpTo(e, f, c, parse, 5) {
        CustomDateOk(e, f, c, parse);
      }
      SkipStage(store, f, c, parse, 5);
    }
  }

  /** Without a named period the date stage is the custom range, when one is given. */
  lemma CustomDateOk(e: Event, f: ApiFilters, c: Clock, parse: Parser)
    requires !SymbolicActive(f)
    ensures DateOk(e, f, c, parse) == (f.dateFrom != "" || f.dateTo != "" ==> WithinCustomRange(e, f.dateFrom, f.dateTo, parse))
  {
  }

  lemma LastStep(store: seq<Event>, f: ApiFilters, c: Clock, parse: Parser)
    ensures Filter(store, UpTo(f, c, parse, 6)) == Query(store, f, c, parse)
  {
    FilterCongruent(store, UpTo(f, c, parse, 6), Kept(f, c, parse));
  }

  /** `fetchEvents`: drop placeholders, then narrow the list stage by stage, each
      stage only when its filter is active. The result is the single-pass query. */
  method FetchEvents(store: seq<Event>, filters: ApiFilters, c: Clock, parse: Parser)
    returns (filteredEvents: seq<Event>)
    ensures filteredEvents == Query(store, filters, c, parse)
  {
    filteredEvents := Filter(store, NotPlaceholder());
    PlaceholderStep(store, filters, c, parse);

    SearchStep(store, filters, c, parse);
    if filters.search != "" {
      var searchTerm := Lower(filters.search);
      filteredEvents := Filter(filteredEvents, SearchStage(searchTerm));
    }

    CategoryStep(store, filters, c, parse);
    if filters.category != "" {
      filteredEvents := Filter(filteredEvents, CategoryStage(filters.category));
    }

    OvmStep(store, filters, c, parse);
    var ovmFilter := IdList(filters.ovm);
    if |ovmFilter| > 0 {
      filteredEvents := Filter(filteredEvents, OvmStage(ovmFilter));
    }

    IsvsStep(store, filters, c, parse);
    var isvsFilter := IdList(filters.isvs);
    if |isvsFilter| > 0 {
      filteredEvents := Filter(filteredEvents, IsvsStage(isvsFilter));
    }

    if SymbolicActive(filters) {
      PeriodStep(store, filters, c, parse);
      var dateRange := GetDateRange(filters.dateFilter.value, c);
      if dateRange.Some? {
        filteredEvents := Filter(filteredEvents, PeriodStage(dateRange.value, parse));
      }
    } else if filters.dateFrom != "" || filters.dateTo != "" {
      CustomStep(store, filters, c, parse);
      filteredEvents := Filter(filteredEvents, CustomStage(filters.dateFrom, filters.dateTo, parse));
    } else {
      CustomStep(store, filters, c, parse);
    }
    LastStep(store, filters, c, parse);
  }

  // ---------------------------------------------------------------------------
  // What the query keeps.

  /** The result is the store with records deleted, in the original order; a record
      is in it exactly when it is in the store, its title is not a placeholder, and
      it passes every filter. */
  lemma {:induction false} QueryMembership(store: seq<Event>, f: ApiFilters, c: Clock, parse: Parser, e: Event)
    ensures IsSubsequence(Query(store, f, c, parse), store)
    ensures e in Query(store, f, c, parse) <==>
      && e in store
      && !IsPlaceholderTitle(e.nazevUdalosti)
      && SearchOk(e, f)
      && CategoryOk(e, f)
      && OvmOk(e, f)
      && IsvsOk(e, f)
      && DateOk(e, f, c, parse)
  {
    FilterIsSubsequence(store, Kept(f, c, parse));
    FilterMember(store, Kept(f, c, parse), e);
  }

  /** A record of the form "Událost #<digits>.0" is never returned. */
  lemma {:induction false} NoPlaceholderResults(store: seq<Event>, f: ApiFilters, c: Clock, parse: Parser, n: nat)
    ensures forall e :: e in Query(store, f, c, parse) ==>
      e.nazevUdalosti != PLACEHOLDER_PREFIX + NatToString(n) + ".0"
  {
    PlaceholderShape(n);
  }

  /** The fallback-title shape "Událost #<n>.0" matches the placeholder pattern. */
  lemma {:induction false} PlaceholderShape(n: nat)
    ensures IsPlaceholderTitle(PLACEHOLDER_PREFIX + NatToString(n) + ".0")
  {
    var t := PLACEHOLDER_PREFIX + NatToString(n) + ".0";
    assert t[..|PLACEHOLDER_PREFIX|] == PLACEHOLDER_PREFIX;
    assert t[|t| - 2..] == ".0";
    assert t[|PLACEHOLDER_PREFIX|..|t| - 2] == NatToString(n);
  }

  /** When every filter is inactive the query only drops the placeholders. */
  lemma {:induction false} NoFilters(store: seq<Event>, c: Clock, parse: Parser)
    ensures Query(store, ApiFilters("", "", Absent, Absent, "", "", None), c, parse)
      == Filter(store, NotPlaceholder())
  {
    FilterCongruent(store, Kept(ApiFilters("", "", Absent, Absent, "", "", None), c, parse), NotPlaceholder());
  }

  /** Running the query again on its own result changes nothing. */
  lemma {:induction false} QueryIdempotent(store: seq<Event>, f: ApiFilters, c: Clock, parse: Parser)
    ensures Query(Query(store, f, c, parse), f, c, parse) == Query(store, f, c, parse)
  {
    FilterFilter(store, Kept(f, c, parse), Kept(f, c, parse), Kept(f, c, parse));
  }

  /** Each record is judged on its own: the query distributes over concatenation. */
  lemma {:induction false} QueryAppend(a: seq<Event>, b: seq<Event>, f: ApiFilters, c: Clock, parse: Parser)
    ensures Query(a + b, f, c, parse) == Query(a, f, c, parse) + Query(b, f, c, parse)
  {
    FilterAppend(a, b, Kept(f, c, parse));
  }

  /** If `f` keeps exactly what `g` keeps and `stage` accepts, the query under `f`
      is the query under `g` narrowed by `stage`. */
  lemma {:induction false} Narrowing(store: seq<Event>, f: ApiFilters, g: ApiFilters, c: Clock, parse: Parser, stage: Event -> bool)
    requires forall e :: Keep(e, f, c, parse) == (Keep(e, g, c, parse) && stage(e))
    ensures Query(store, f, c, parse) == Filter(Query(store, g, c, parse), stage)
  {
    FilterFilter(store, Kept(g, c, parse), stage, Kept(f, c, parse));
  }

  /** Filters that keep the same records give the same query. */
  lemma {:induction false} SameQuery(store: seq<Event>, f: ApiFilters, g: ApiFilters, c: Clock, parse: Parser)
    requires forall e :: Keep(e, f, c, parse) == Keep(e, g, c, parse)
    ensures Query(store, f, c, parse) == Query(store, g, c, parse)
  {
    FilterCongruent(store, Kept(f, c, parse), Kept(g, c, parse));
  }

  // ---------------------------------------------------------------------------
  // Free-text search.

  /** A non-empty search term narrows the unsearched query to the records matching
      it; an empty term imposes nothing. */
  lemma {:induction false} SearchNarrows(store: seq<Event>, f: ApiFilters, c: Clock, parse: Parser)
    ensures f.search != "" ==>
      Query(store, f, c, parse) == Filter(Query(store, f.(search := ""), c, parse), SearchStage(Lower(f.search)))
    ensures f.search == "" ==> Query(store, f, c, parse) == Query(store, f.(search := ""), c, parse)
  {
    if f.search != "" {
      Narrowing(store, f, f.(search := ""), c, parse, SearchStage(Lower(f.search)));
    }
  }

  /** With a non-empty term, a record matches iff the term occurs in the lower-cased
      text of one of its six searched fields; the emptiness guard on each field makes
      no difference, since an empty field contains no non-empty term. */
  lemma {:induction false} SearchSemantics(e: Event, term: string)
    requires term != ""
    ensures MatchesSearch(e, term) <==>
      || Contains(Lower(e.nazevUdalosti), term)
      || Contains(Lower(e.popisUdalosti), term)
      || Contains(Lower(e.organizator), term)
      || Contains(Lower(e.mistoKonani), term)
      || Contains(Lower(e.kategorieNazev), term)
      || Contains(Lower(e.zkratkaInformacnihoSystemu), term)
  {
    EmptyFieldNoMatch(e.nazevUdalosti, term);
    EmptyFieldNoMatch(e.popisUdalosti, term);
    EmptyFieldNoMatch(e.organizator, term);
    EmptyFieldNoMatch(e.mistoKonani, term);
    EmptyFieldNoMatch(e.kategorieNazev, term);
    EmptyFieldNoMatch(e.zkratkaInformacnihoSystemu, term);
  }

  lemma {:induction false} EmptyFieldNoMatch(field: string, term: string)
    requires term != ""
    ensures FieldMatches(field, term) <==> Contains(Lower(field), term)
  {
    if field == "" {
      assert Lower(field) == "";
      ContainsEmpty(field, term);
    }
  }

  /** The search is case-insensitive in the term: the term is lower-cased first. */
  lemma {:induction false} SearchCaseInsensitive(store: seq<Event>, f: ApiFilters, c: Clock, parse: Parser)
    ensures Query(store, f, c, parse) == Query(store, f.(search := Lower(f.search)), c, parse)
  {
    LowerIdempotent(f.search);
    SameQuery(store, f, f.(search := Lower(f.search)), c, parse);
  }

  // ---------------------------------------------------------------------------
  // Category, authority and information-system filters.

  /** A non-empty category keeps exactly the records of that category. */
  lemma {:induction false} CategoryNarrows(store: seq<Event>, f: ApiFilters, c: Clock, parse: Parser)
    ensures f.category != "" ==>
      Query(store, f, c, parse) == Filter(Query(store, f.(category := ""), c, parse), CategoryStage(f.category))
    ensures f.category == "" ==> Query(store, f, c, parse) == Query(store, f.(category := ""), c, parse)
  {
    if f.category != "" {
      Narrowing(store, f, f.(category := ""), c, parse, CategoryStage(f.category));
    }
  }

  /** A non-empty id list keeps only the records whose authority is listed; an absent
      field, an empty string and an empty list all impose nothing. */
  lemma {:induction false} OvmNarrows(store: seq<Event>, f: ApiFilters, c: Clock, parse: Parser)
    ensures IdList(f.ovm) != [] ==>
      Query(store, f, c, parse) == Filter(Query(store, f.(ovm := Absent), c, parse), OvmStage(IdList(f.ovm)))
    ensures IdList(f.ovm) == [] ==> Query(store, f, c, parse) == Query(store, f.(ovm := Absent), c, parse)
  {
    if IdList(f.ovm) != [] {
      Narrowing(store, f, f.(ovm := Absent), c, parse, OvmStage(IdList(f.ovm)));
    } else {
      SameQuery(store, f, f.(ovm := Absent), c, parse);
    }
  }

  /** The same for the information-system filter. */
  lemma {:induction false} IsvsNarrows(store: seq<Event>, f: ApiFilters, c: Clock, parse: Parser)
    ensures IdList(f.isvs) != [] ==>
      Query(store, f, c, parse) == Filter(Query(store, f.(isvs := Absent), c, parse), IsvsStage(IdList(f.isvs)))
    ensures IdList(f.isvs) == [] ==> Query(store, f, c, parse) == Query(store, f.(isvs := Absent), c, parse)
  {
    if IdList(f.isvs) != [] {
      Narrowing(store, f, f.(isvs := Absent), c, parse, IsvsStage(IdList(f.isvs)));
    } else {
      SameQuery(store, f, f.(isvs := Absent), c, parse);
    }
  }

  /** A single id string filters like the one-element list holding it. */
  lemma {:induction false} SingleIdIsList(store: seq<Event>, f: ApiFilters, c: Clock, parse: Parser, id: string)
    requires id != ""
    ensures Query(store, f.(ovm := One(id)), c, parse) == Query(store, f.(ovm := Many([id])), c, parse)
    ensures Query(store, f.(isvs := One(id)), c, parse) == Query(store, f.(isvs := Many([id])), c, parse)
  {
    SameQuery(store, f.(ovm := One(id)), f.(ovm := Many([id])), c, parse);
    SameQuery(store, f.(isvs := One(id)), f.(isvs := Many([id])), c, parse);
  }

  /** Adding ids to a non-empty authority list can only add records to the result.
      (Growing the empty list does not have this property: the empty list keeps
      everything.) */
  lemma {:induction false} OvmGrowMonotone(store: seq<Event>, f: ApiFilters, c: Clock, parse: Parser, more: seq<string>)
    requires IdList(f.ovm) != []
    requires forall id :: id in IdList(f.ovm) ==> id in more
    ensures IsSubsequence(Query(store, f, c, parse), Query(store, f.(ovm := Many(more)), c, parse))
  {
    assert IdList(f.ovm)[0] in more;
    FilterMonotone(store, Kept(f, c, parse), Kept(f.(ovm := Many(more)), c, parse));
  }

  /** The same for the information-system list. */
  lemma {:induction false} IsvsGrowMonotone(store: seq<Event>, f: ApiFilters, c: Clock, parse: Parser, more: seq<string>)
    requires IdList(f.isvs) != []
    requires forall id :: id in IdList(f.isvs) ==> id in more
    ensures IsSubsequence(Query(store, f, c, parse), Query(store, f.(isvs := Many(more)), c, parse))
  {
    assert IdList(f.isvs)[0] in more;
    FilterMonotone(store, Kept(f, c, parse), Kept(f.(isvs := Many(more)), c, parse));
  }

  // ---------------------------------------------------------------------------
  // Date filters.

  /** The filters with no date constraint of any kind. */
  function WithoutDates(f: ApiFilters): (g: ApiFilters)
    ensures g.dateFilter == None && g.dateFrom == "" && g.dateTo == ""
    ensures g.search == f.search && g.category == f.category && g.ovm == f.ovm && g.isvs == f.isvs
  {
    f.(dateFilter := None, dateFrom := "", dateTo := "")
  }

  /** A known period token narrows the undated query to the records whose start is
      non-empty, parses and lies in the period, both ends included; `dateFrom` and
      `dateTo` are then ignored. */
  lemma {:induction false} PeriodNarrows(store: seq<Event>, f: ApiFilters, c: Clock, parse: Parser)
    requires SymbolicActive(f) && GetDateRange(f.dateFilter.value, c).Some?
    ensures Query(store, f, c, parse) ==
      Filter(Query(store, WithoutDates(f), c, parse), PeriodStage(GetDateRange(f.dateFilter.value, c).value, parse))
  {
    Narrowing(store, f, WithoutDates(f), c, parse, PeriodStage(GetDateRange(f.dateFilter.value, c).value, parse));
  }

  /** An unknown period token imposes nothing, and the custom bounds are not consulted
      either, because the symbolic branch was taken. */
  lemma {:induction false} UnknownPeriodIgnoresBounds(store: seq<Event>, f: ApiFilters, c: Clock, parse: Parser)
    requires SymbolicActive(f) && GetDateRange(f.dateFilter.value, c).None?
    ensures Query(store, f, c, parse) == Query(store, WithoutDates(f), c, parse)
  {
    SameQuery(store, f, WithoutDates(f), c, parse);
  }

  /** With no period (or 'custom') and at least one bound, the undated query is
      narrowed by the custom from/to test. */
  lemma {:induction false} CustomNarrows(store: seq<Event>, f: ApiFilters, c: Clock, parse: Parser)
    requires !SymbolicActive(f) && (f.dateFrom != "" || f.dateTo != "")
    ensures Query(store, f, c, parse) ==
      Filter(Query(store, WithoutDates(f), c, parse), CustomStage(f.dateFrom, f.dateTo, parse))
  {
    Narrowing(store, f, WithoutDates(f), c, parse, CustomStage(f.dateFrom, f.dateTo, parse));
  }

  /** The period test is inclusive at both ends, so a record starting exactly at the
      end instant (the next midnight, the first of next month or year) is kept. */
  lemma {:induction false} PeriodEndsIncluded(e: Event, token: string, c: Clock, parse: Parser)
    requires WellFormed(c) && GetDateRange(token, c).Some?
    requires e.datumZacatek != ""
    requires parse(e.datumZacatek) == Some(GetDateRange(token, c).value.start)
      || parse(e.datumZacatek) == Some(GetDateRange(token, c).value.end)
    ensures IsDateInRange(e.datumZacatek, GetDateRange(token, c).value, parse)
    ensures token == "today" ==> parse(e.datumZacatek).value == c.today || parse(e.datumZacatek).value == c.today + DAY_MS
  {
  }

  /** On a well-formed clock every period contains the current instant. */
  lemma {:induction false} PeriodContainsNow(token: string, c: Clock)
    requires WellFormed(c)
    requires token in ["today", "week", "month", "year"]
    ensures GetDateRange(token, c).Some?
    ensures GetDateRange(token, c).value.start <= c.now <= GetDateRange(token, c).value.end
  {
  }

  /** When the start and both bounds parse, the custom test is the closed interval
      from `dateFrom` to the last millisecond of the day of `dateTo`. */
  lemma {:induction false} CustomRangeSemantics(e: Event, dateFrom: string, dateTo: string, parse: Parser)
    requires dateFrom != "" && dateTo != "" && e.datumZacatek != ""
    requires parse(e.datumZacatek).Some? && parse(dateFrom).Some? && parse(dateTo).Some?
    ensures WithinCustomRange(e, dateFrom, dateTo, parse) <==>
      parse(dateFrom).value <= parse(e.datumZacatek).value <= EndOfDay(parse(dateTo).value)
  {
  }

  /** The custom test never keeps a record without a start, and a bound that is absent
      or does not parse imposes nothing; a start that does not parse passes both
      bounds, since comparisons with NaN are false. */
  lemma {:induction false} CustomRangeEdges(e: Event, dateFrom: string, dateTo: string, parse: Parser)
    ensures e.datumZacatek == "" ==> !WithinCustomRange(e, dateFrom, dateTo, parse)
    ensures e.datumZacatek != "" && parse(e.datumZacatek).None? ==> WithinCustomRange(e, dateFrom, dateTo, parse)
    ensures (e.datumZacatek != "" && (dateFrom == "" || parse(dateFrom).None?)
      && (dateTo == "" || parse(dateTo).None?)) ==> WithinCustomRange(e, dateFrom, dateTo, parse)
  {
  }
}
