/** The page component: the initial filter state, the mapping of the panel's filters
    to the query's, the sort by start time, the per-period event counts shown next to
    the date radios, the list of active-filter tags with removal of one tag, and
    clearing all filters. */
module App {
  import opened Wrappers
  import opened Seqs
  import opened Text
  import opened Time
  import opened EventTypes
  import opened EventFilters
  import EventsApi

  /** The state `useState` starts with, and the one `clearAllFilters` restores. */
  const INITIAL_FILTERS: Filters := Filters("", "", [], [], All, "", "")

  // ---------------------------------------------------------------------------
  // Filters on the way to the query.

  /** The query's token for a date choice other than 'all'. */
  function DateToken(d: DateChoice): (t: string)
    requires d != All
    ensures t in ["today", "week", "month", "year", "custom"]
  {
    match d
    case Today => "today"
    case Week => "week"
    case Month => "month"
    case Year => "year"
    case Custom => "custom"
  }

  /** `apiFilters` in `loadEvents`: 'all' becomes an absent date filter, every other
      field passes through unchanged (the id lists as lists). */
  function ToApiFilters(f: Filters): (a: EventsApi.ApiFilters)
    ensures a.dateFilter.None? <==> f.dateFilter == All
    ensures f.dateFilter != All ==> a.dateFilter == Some(DateToken(f.dateFilter))
    ensures a.search == f.search && a.category == f.category
    ensures a.ovm == EventsApi.Many(f.ovm) && a.isvs == EventsApi.Many(f.isvs)
    ensures a.dateFrom == f.dateFrom && a.dateTo == f.dateTo
  {
    EventsApi.ApiFilters(
      f.search, f.category, EventsApi.Many(f.ovm), EventsApi.Many(f.isvs),
      f.dateFrom, f.dateTo,
      if f.dateFilter == All then None else Some(DateToken(f.dateFilter)))
  }

  /** The tokens the panel can send are exactly the ones the query knows, so a
      symbolic period is always applied as a range, and 'custom' selects the from/to
      branch. */
  lemma {:induction false} PanelTokensKnown(f: Filters, c: Clock)
    ensures f.dateFilter !in {All, Custom} ==>
      EventsApi.SymbolicActive(ToApiFilters(f)) && EventsApi.GetDateRange(DateToken(f.dateFilter), c).Some?
    ensures f.dateFilter in {All, Custom} ==> !EventsApi.SymbolicActive(ToApiFilters(f))
  {
  }

  /** With the initial filters the query drops only the placeholder records. */
  lemma {:induction false} InitialQuery(store: seq<Event>, c: Clock, parse: Parser)
    ensures EventsApi.Query(store, ToApiFilters(INITIAL_FILTERS), c, parse)
      == Filter(store, EventsApi.NotPlaceholder())
  {
    var empty := EventsApi.ApiFilters("", "", EventsApi.Absent, EventsApi.Absent, "", "", None);
    EventsApi.SameQuery(store, ToApiFilters(INITIAL_FILTERS), empty, c, parse);
    EventsApi.NoFilters(store, c, parse);
  }

  // ---------------------------------------------------------------------------
  // Sorting by start time.

  datatype SortOrder = Newest | Oldest

  /** The position key the comparator orders by: `dateB - dateA` for 'newest' is
      ascending order of the negated time, `dateA - dateB` ascending order of the
      time. `time` is `new Date(e.datum_zacatek).getTime()`. */
  function Rank(e: Event, order: SortOrder, time: Event -> int): int {
    if order == Newest then -time(e) else time(e)
  }

  /** Every element ranks no higher than every later one. */
  predicate SortedBy(s: seq<Event>, order: SortOrder, time: Event -> int) {
    forall i, j :: 0 <= i < j < |s| ==> Rank(s[i], order, time) <= Rank(s[j], order, time)
  }

  /** Each element ranks no higher than the next one. */
  predicate Ordered(s: seq<Event>, order: SortOrder, time: Event -> int) {
    |s| <= 1 || (Rank(s[0], order, time) <= Rank(s[1], order, time) && Ordered(s[1..], order, time))
  }

  /** Order between neighbours is order between all pairs. */
  lemma {:induction false} OrderedSorted(s: seq<Event>, order: SortOrder, time: Event -> int)
    requires Ordered(s, order, time)
    ensures SortedBy(s, order, time)
  {
    if |s| > 1 {
      OrderedSorted(s[1..], order, time);
      forall i, j | 0 <= i < j < |s| ensures Rank(s[i], order, time) <= Rank(s[j], order, time) {
        if i == 0 {
          if j > 1 {
            assert s[1] == s[1..][0] && s[j] == s[1..][j - 1];
          }
        } else {
          assert s[i] == s[1..][i - 1] && s[j] == s[1..][j - 1];
        }
      }
    }
  }

  /** Order between all pairs gives order between neighbours. */
  lemma {:induction false} SortedOrdered(s: seq<Event>, order: SortOrder, time: Event -> int)
    requires SortedBy(s, order, time)
    ensures Ordered(s, order, time)
  {
    if |s| > 1 {
      assert SortedBy(s[1..], order, time) by {
        forall i, j | 0 <= i < j < |s[1..]| ensures Rank(s[1..][i], order, time) <= Rank(s[1..][j], order, time) {
          assert s[1..][i] == s[i + 1] && s[1..][j] == s[j + 1];
        }
      }
      SortedOrdered(s[1..], order, time);
    }
  }

  /** Insert `x` after every leading element of rank at most its own. */
  function Insert(x: Event, s: seq<Event>, order: SortOrder, time: Event -> int): (r: seq<Event>)
    ensures multiset(r) == multiset(s) + multiset{x}
    ensures |r| == |s| + 1
    ensures r[0] == x || (s != [] && r[0] == s[0])
  {
    if s == [] then [x]
    else if Rank(x, order, time) < Rank(s[0], order, time) then [x] + s
    else
      assert s == [s[0]] + s[1..];
      [s[0]] + Insert(x, s[1..], order, time)
  }

  /** Inserting into an ordered list keeps it ordered. */
  lemma {:induction false} InsertOrdered(x: Event, s: seq<Event>, order: SortOrder, time: Event -> int)
    requires Ordered(s, order, time)
    ensures Ordered(Insert(x, s, order, time), order, time)
  {
    if s != [] && Rank(x, order, time) >= Rank(s[0], order, time) {
      InsertOrdered(x, s[1..], order, time);
      var rest := Insert(x, s[1..], order, time);
      assert Insert(x, s, order, time) == [s[0]] + rest;
      assert ([s[0]] + rest)[1..] == rest;
    }
  }

  /** The list `loadEvents` shows: the fetched records sorted by start time, newest
      first for 'newest' and oldest first for 'oldest'; a rearrangement of the input. */
  function SortEvents(data: seq<Event>, order: SortOrder, time: Event -> int): (r: seq<Event>)
    ensures multiset(r) == multiset(data)
    ensures |r| == |data|
    ensures Ordered(r, order, time)
  {
    if data == [] then []
    else
      var init := data[..|data| - 1];
      assert data == init + [data[|data| - 1]];
      InsertOrdered(data[|data| - 1], SortEvents(init, order, time), order, time);
      Insert(data[|data| - 1], SortEvents(init, order, time), order, time)
  }

  /** What the order means for the start times: non-increasing for 'newest',
      non-decreasing for 'oldest'. */
  lemma {:induction false} SortEventsOrder(data: seq<Event>, order: SortOrder, time: Event -> int)
    ensures var r := SortEvents(data, order, time);
      && (order == Newest ==> forall i, j :: 0 <= i < j < |r| ==> time(r[i]) >= time(r[j]))
      && (order == Oldest ==> forall i, j :: 0 <= i < j < |r| ==> time(r[i]) <= time(r[j]))
  {
    OrderedSorted(SortEvents(data, order, time), order, time);
  }

  /** A list that is already in order is left as it is. */
  lemma {:induction false} SortKeepsSorted(data: seq<Event>, order: SortOrder, time: Event -> int)
    requires SortedBy(data, order, time)
    ensures SortEvents(data, order, time) == data
  {
    if data != [] {
      var init, x := data[..|data| - 1], data[|data| - 1];
      assert data == init + [x];
      SortedParts(data, init, x, order, time);
      SortKeepsSorted(init, order, time);
      InsertLast(x, init, order, time);
      SortEventsSnoc(data, order, time);
    }
  }

  /** Without its last element `x` a sorted list stays sorted, and `x` ranks
      at least as high as every other element. */
  lemma SortedParts(data: seq<Event>, init: seq<Event>, x: Event, order: SortOrder, time: Event -> int)
    requires data == init + [x] && SortedBy(data, order, time)
    ensures SortedBy(init, order, time)
    ensures forall i :: 0 <= i < |init| ==> Rank(init[i], order, time) <= Rank(x, order, time)
  {
    forall i, j | 0 <= i < j < |init| ensures Rank(init[i], order, time) <= Rank(init[j], order, time) {
      assert init[i] == data[i] && init[j] == data[j];
    }
    forall i | 0 <= i < |init| ensures Rank(init[i], order, time) <= Rank(x, order, time) {
      assert init[i] == data[i] && x == data[|init|];
    }
  }

  /** The last record is inserted into the sorted rest. */
  lemma {:induction false} SortEventsSnoc(data: seq<Event>, order: SortOrder, time: Event -> int)
    requires data != []
    ensures SortEvents(data, order, time)
         == Insert(data[|data| - 1], SortEvents(data[..|data| - 1], order, time), order, time)
  {
  }

  /** The records of rank `k`, as a value `Filter` can take. */
  function RankIs(order: SortOrder, time: Event -> int, k: int): Event -> bool {
    e => Rank(e, order, time) == k
  }

  /** Inserting into an ordered list puts `x` after every element of its own rank. */
  lemma {:induction false} InsertStable(x: Event, s: seq<Event>, order: SortOrder, time: Event -> int, k: int)
    requires Ordered(s, order, time)
    ensures Filter(Insert(x, s, order, time), RankIs(order, time, k))
         == Filter(s, RankIs(order, time, k)) + Filter([x], RankIs(order, time, k))
  {
    var p := RankIs(order, time, k);
    if s == [] {
      InsertEmpty(x, s, order, time, k);
    } else if Rank(x, order, time) < Rank(s[0], order, time) {
      InsertFront(x, s, order, time, k);
    } else {
      assert Ordered(s[1..], order, time);
      InsertStable(x, s[1..], order, time, k);
      InsertBehind(x, s, order, time, k);
    }
  }

  /** An `x` ranked at least as high as the head goes behind it, wherever it goes
      in the rest. */
  lemma InsertBehind(x: Event, s: seq<Event>, order: SortOrder, time: Event -> int, k: int)
    requires s != [] && Rank(x, order, time) >= Rank(s[0], order, time)
    requires Filter(Insert(x, s[1..], order, time), RankIs(order, time, k))
          == Filter(s[1..], RankIs(order, time, k)) + Filter([x], RankIs(order, time, k))
    ensures Filter(Insert(x, s, order, time), RankIs(order, time, k))
         == Filter(s, RankIs(order, time, k)) + Filter([x], RankIs(order, time, k))
  {
    InsertCons(x, s, order, time);
    ConsFilter(s, Insert(x, s[1..], order, time), RankIs(order, time, k), Filter([x], RankIs(order, time, k)));
  }

  /** Behind the head, `x` is inserted into the rest. */
  lemma InsertCons(x: Event, s: seq<Event>, order: SortOrder, time: Event -> int)
    requires s != [] && Rank(x, order, time) >= Rank(s[0], order, time)
    ensures Insert(x, s, order, time) == [s[0]] + Insert(x, s[1..], order, time)
  {
  }

  /** Into an empty list `x` goes alone. */
  lemma InsertEmpty(x: Event, s: seq<Event>, order: SortOrder, time: Event -> int, k: int)
    requires s == []
    ensures Filter(Insert(x, s, order, time), RankIs(order, time, k))
         == Filter(s, RankIs(order, time, k)) + Filter([x], RankIs(order, time, k))
  {
    assert Insert(x, s, order, time) == [x];
  }

  /** An `x` ranked below the head of an ordered list goes in front, and no element
      of the list shares its rank. */
  lemma InsertFront(x: Event, s: seq<Event>, order: SortOrder, time: Event -> int, k: int)
    requires Ordered(s, order, time) && s != [] && Rank(x, order, time) < Rank(s[0], order, time)
    ensures Filter(Insert(x, s, order, time), RankIs(order, time, k))
         == Filter(s, RankIs(order, time, k)) + Filter([x], RankIs(order, time, k))
  {
    var p := RankIs(order, time, k);
    InsertHead(x, s, order, time);
    FilterAppend([x], s, p);
    FilterSingle(x, p);
    if Rank(x, order, time) == k {
      OrderedSorted(s, order, time);
      forall i | 0 <= i < |s| ensures !p(s[i]) {
        if i > 0 {
          assert Rank(s[0], order, time) <= Rank(s[i], order, time);
        }
      }
      FilterNone(s, p);
    }
  }

  /** Ranked below the head, `x` goes in front. */
  lemma InsertHead(x: Event, s: seq<Event>, order: SortOrder, time: Event -> int)
    requires s != [] && Rank(x, order, time) < Rank(s[0], order, time)
    ensures Insert(x, s, order, time) == [x] + s
  {
  }

  /** The sort is stable: the records of any one rank (equal start times, for which
      the comparator returns 0) come out in the order they came in. */
  lemma {:induction false} SortStable(data: seq<Event>, order: SortOrder, time: Event -> int, k: int)
    ensures Filter(SortEvents(data, order, time), RankIs(order, time, k)) == Filter(data, RankIs(order, time, k))
  {
    if data != [] {
      var p := RankIs(order, time, k);
      var init, x := data[..|data| - 1], data[|data| - 1];
      assert data == init + [x];
      SortEventsSnoc(data, order, time);
      SortStable(init, order, time, k);
      InsertStable(x, SortEvents(init, order, time), order, time, k);
      FilterAppend(init, [x], p);
    }
  }

  /** `time` is `new Date(e.datum_zacatek).getTime()` wherever the start parses. */
  ghost predicate StartTime(time: Event -> int, parse: Parser) {
    forall e: Event :: parse(e.datumZacatek).Some? ==> time(e) == parse(e.datumZacatek).value
  }

  /** Among records whose starts parse, 'newest' puts later starts first and
      'oldest' earlier starts first. */
  predicate StartOrdered(s: seq<Event>, order: SortOrder, parse: Parser) {
    forall i, j :: 0 <= i < j < |s| && parse(s[i].datumZacatek).Some? && parse(s[j].datumZacatek).Some? ==>
      if order == Newest then parse(s[i].datumZacatek).value >= parse(s[j].datumZacatek).value
      else parse(s[i].datumZacatek).value <= parse(s[j].datumZacatek).value
  }

  /** With the parsed start as the key, the sorted list is in start-time order. */
  lemma {:induction false} SortedByStart(data: seq<Event>, order: SortOrder, time: Event -> int, parse: Parser)
    requires StartTime(time, parse)
    ensures StartOrdered(SortEvents(data, order, time), order, parse)
  {
    SortEventsOrder(data, order, time);
  }

  /** Inserting an element of maximal rank appends it. */
  lemma {:induction false} InsertLast(x: Event, s: seq<Event>, order: SortOrder, time: Event -> int)
    requires forall i :: 0 <= i < |s| ==> Rank(s[i], order, time) <= Rank(x, order, time)
    ensures Insert(x, s, order, time) == s + [x]
  {
    if s != [] {
      var t := s[1..];
      assert Rank(s[0], order, time) <= Rank(x, order, time);
      assert Insert(x, s, order, time) == [s[0]] + Insert(x, t, order, time);
      forall i | 0 <= i < |t| ensures Rank(t[i], order, time) <= Rank(x, order, time) {
        assert t[i] == s[i + 1];
      }
      InsertLast(x, t, order, time);
      assert [s[0]] + (t + [x]) == s + [x];
    }
  }

  // ---------------------------------------------------------------------------
  // Event counts for the date radios.

  datatype EventCounts = EventCounts(dnes: nat, tyden: nat, mesic: nat, rok: nat)

  /** A record whose start parses to an instant in `[lo, hi]`. */
  predicate InWindow(e: Event, lo: int, hi: int, parse: Parser) {
    parse(e.datumZacatek).Some? && lo <= parse(e.datumZacatek).value <= hi
  }

  function WindowSelector(lo: int, hi: int, parse: Parser): Event -> bool {
    (e: Event) => InWindow(e, lo, hi, parse)
  }

  function CountIn(events: seq<Event>, lo: int, hi: int, parse: Parser): (n: nat)
    ensures n <= |events|
  {
    |Filter(events, WindowSelector(lo, hi, parse))|
  }

  /** `startOfWeek`: `today.getDate() - today.getDay() + 1`, the Monday of the week
      for Monday to Saturday, but the next day for a Sunday. */
  function WeekStart(c: Clock): int {
    c.today + (1 - c.weekday) * DAY_MS
  }

  /** The inclusive windows: today to its last millisecond; the Monday-based week to
      the end of its sixth following day; the first of the month to the end of its
      day 0 of next month; the first of the year to the end of 31 December. */
  function DayEnd(c: Clock): int { EndOfDay(c.today) }
  function WeekEnd(c: Clock): int { EndOfDay(WeekStart(c) + 6 * DAY_MS) }
  function MonthEnd(c: Clock): int { EndOfDay(c.nextMonthStart - DAY_MS) }
  function YearEnd(c: Clock): int { EndOfDay(c.nextYearStart - DAY_MS) }

  /** `getEventsCount`: all zeros when nothing was fetched, otherwise the number of
      records starting in each window. */
  function GetEventsCount(events: seq<Event>, c: Clock, parse: Parser): (r: EventCounts)
    ensures events == [] ==> r == EventCounts(0, 0, 0, 0)
    ensures r.dnes <= |events| && r.tyden <= |events| && r.mesic <= |events| && r.rok <= |events|
    ensures events != [] ==>
      && r.dnes == CountIn(events, c.today, DayEnd(c), parse)
      && r.tyden == CountIn(events, WeekStart(c), WeekEnd(c), parse)
      && r.mesic == CountIn(events, c.monthStart, MonthEnd(c), parse)
      && r.rok == CountIn(events, c.yearStart, YearEnd(c), parse)
  {
    if |events| == 0 then EventCounts(0, 0, 0, 0)
    else EventCounts(
      CountIn(events, c.today, DayEnd(c), parse),
      CountIn(events, WeekStart(c), WeekEnd(c), parse),
      CountIn(events, c.monthStart, MonthEnd(c), parse),
      CountIn(events, c.yearStart, YearEnd(c), parse))
  }

  /** On a well-formed clock the windows close one millisecond before the next
      period starts. */
  lemma {:induction false} WindowEnds(c: Clock)
    requires WellFormed(c)
    ensures DayEnd(c) == c.today + DAY_MS - 1
    ensures WeekEnd(c) == WeekStart(c) + 7 * DAY_MS - 1
    ensures MonthEnd(c) == c.nextMonthStart - 1
    ensures YearEnd(c) == c.nextYearStart - 1
  {
    EndOfMidnight(c.today);
    MidnightPlusDays(c.nextMonthStart, -1);
    EndOfMidnight(c.nextMonthStart - DAY_MS);
    MidnightPlusDays(c.nextYearStart, -1);
    EndOfMidnight(c.nextYearStart - DAY_MS);
    MidnightPlusDays(c.today, 7 - c.weekday);
    EndOfMidnight(WeekStart(c) + 6 * DAY_MS);
  }

  /** A window inside another counts no more records. */
  lemma {:induction false} CountInMonotone(events: seq<Event>, lo1: int, hi1: int, lo2: int, hi2: int, parse: Parser)
    requires lo2 <= lo1 && hi1 <= hi2
    ensures CountIn(events, lo1, hi1, parse) <= CountIn(events, lo2, hi2, parse)
  {
    FilterMonotone(events, WindowSelector(lo1, hi1, parse), WindowSelector(lo2, hi2, parse));
  }

  /** Today lies in this month, which lies in this year, so the counts are nested. */
  lemma {:induction false} CountsNested(events: seq<Event>, c: Clock, parse: Parser)
    requires WellFormed(c)
    ensures GetEventsCount(events, c, parse).dnes <= GetEventsCount(events, c, parse).mesic
    ensures GetEventsCount(events, c, parse).mesic <= GetEventsCount(events, c, parse).rok
    ensures GetEventsCount(events, c, parse).rok <= |events|
  {
    if events != [] {
      WindowEnds(c);
      CountInMonotone(events, c.today, DayEnd(c), c.monthStart, MonthEnd(c), parse);
      CountInMonotone(events, c.monthStart, MonthEnd(c), c.yearStart, YearEnd(c), parse);
    }
  }

  /** From Monday to Saturday the week window runs from this week's Monday to the
      end of its Sunday, so it contains today. */
  lemma {:induction false} WeekCountsToday(c: Clock)
    requires WellFormed(c) && c.weekday != 0
    ensures WeekStart(c) <= c.today && c.now <= WeekEnd(c)
  {
    WindowEnds(c);
  }

  /** On a Sunday the week window starts the next day, so a record starting now is
      in today's count but not in this week's. */
  lemma {:induction false} SundayWeekSkipsToday(e: Event, c: Clock, parse: Parser)
    requires WellFormed(c) && c.weekday == 0
    requires parse(e.datumZacatek) == Some(c.now)
    ensures WeekStart(c) == c.today + DAY_MS
    ensures GetEventsCount([e], c, parse).dnes == 1
    ensures GetEventsCount([e], c, parse).tyden == 0
  {
    WindowEnds(c);
    assert Filter([e], WindowSelector(c.today, DayEnd(c), parse))
      == [e] + Filter([e][1..], WindowSelector(c.today, DayEnd(c), parse));
    assert Filter([e], WindowSelector(WeekStart(c), WeekEnd(c), parse))
      == Filter([e][1..], WindowSelector(WeekStart(c), WeekEnd(c), parse));
  }

  // ---------------------------------------------------------------------------
  // Active-filter tags.

  datatype FilterTag = FilterTag(id: string, labelText: string, kind: string, value: Option<string>)

  const OVM_PREFIX: string := "ovm-"
  const ISVS_PREFIX: string := "isvs-"

  /** The label of the date tag; 'Datum' is the fallback of the lookup, which a
      choice other than 'all' never reaches. */
  function DateLabel(d: DateChoice): string {
    match d
    case Today => "Dnes"
    case Week => "Tento týden"
    case Month => "Tento měsíc"
    case Year => "Tento rok"
    case Custom => "Vlastní období"
    case All => "Datum"
  }

  /** One tag per list entry: id `<prefix><index>`, the entry in the label and as
      the value. */
  function IndexedTags(idPrefix: string, labelPrefix: string, kind: string, ids: seq<string>): (r: seq<FilterTag>)
    ensures |r| == |ids|
    ensures forall i :: 0 <= i < |ids| ==>
      r[i] == FilterTag(idPrefix + NatToString(i), labelPrefix + ids[i], kind, Some(ids[i]))
  {
    seq(|ids|, i requires 0 <= i < |ids| => FilterTag(idPrefix + NatToString(i), labelPrefix + ids[i], kind, Some(ids[i])))
  }

  function SearchTags(f: Filters): seq<FilterTag> {
    if f.search != "" then [FilterTag("search", f.search, "search", None)] else []
  }

  function CategoryTags(f: Filters): seq<FilterTag> {
    if f.category != "" then [FilterTag("category", f.category, "category", None)] else []
  }

  function OvmTags(f: Filters): seq<FilterTag> {
    IndexedTags(OVM_PREFIX, "OVM: ", "ovm", f.ovm)
  }

  function IsvsTags(f: Filters): seq<FilterTag> {
    IndexedTags(ISVS_PREFIX, "ISVS: ", "isvs", f.isvs)
  }

  function DateTags(f: Filters): seq<FilterTag> {
    if f.dateFilter != All then [FilterTag("date", DateLabel(f.dateFilter), "date", None)] else []
  }

  /** The reference definition of the tag list: search, category, the authorities,
      the information systems, then the date, each only when set. */
  function ActiveTags(f: Filters): seq<FilterTag> {
    SearchTags(f) + CategoryTags(f) + OvmTags(f) + IsvsTags(f) + DateTags(f)
  }

  /** One tag per set scalar field and one per list entry. */
  lemma {:induction false} ActiveTagsCount(f: Filters)
    ensures |ActiveTags(f)| ==
      (if f.search != "" then 1 else 0) + (if f.category != "" then 1 else 0)
      + |f.ovm| + |f.isvs| + (if f.dateFilter != All then 1 else 0)
  {
  }

  /** `getActiveFilterTags`: push the tags in turn, the list entries with their
      index. */
  method GetActiveFilterTags(f: Filters) returns (tags: seq<FilterTag>)
    ensures tags == ActiveTags(f)
  {
    tags := [];
    if f.search != "" {
      tags := tags + [FilterTag("search", f.search, "search", None)];
    }
    assert tags == SearchTags(f);
    if f.category != "" {
      tags := tags + [FilterTag("category", f.category, "category", None)];
    }
    assert tags == SearchTags(f) + CategoryTags(f);
    tags := PushIndexedTags(tags, OVM_PREFIX, "OVM: ", "ovm", f.ovm);
    tags := PushIndexedTags(tags, ISVS_PREFIX, "ISVS: ", "isvs", f.isvs);
    ghost var before := tags;
    if f.dateFilter != All {
      tags := tags + [FilterTag("date", DateLabel(f.dateFilter), "date", None)];
    }
    assert tags == before + DateTags(f);
  }

  /** The `forEach((id, index) => tags.push(...))` loop over one id list. */
  method PushIndexedTags(head: seq<FilterTag>, idPrefix: string, labelPrefix: string, kind: string, ids: seq<string>)
    returns (tags: seq<FilterTag>)
    ensures tags == head + IndexedTags(idPrefix, labelPrefix, kind, ids)
  {
    tags := head;
    for index := 0 to |ids|
      invariant tags == head + IndexedTags(idPrefix, labelPrefix, kind, ids[..index])
    {
      IndexedTagsSnoc(idPrefix, labelPrefix, kind, ids, index);
      tags := tags + [FilterTag(idPrefix + NatToString(index), labelPrefix + ids[index], kind, Some(ids[index]))];
    }
    assert ids[..|ids|] == ids;
  }

  /** The tags of one more list entry extend the tags of the shorter list. */
  lemma {:induction false} IndexedTagsSnoc(idPrefix: string, labelPrefix: string, kind: string, ids: seq<string>, n: nat)
    requires n < |ids|
    ensures IndexedTags(idPrefix, labelPrefix, kind, ids[..n + 1])
      == IndexedTags(idPrefix, labelPrefix, kind, ids[..n])
        + [FilterTag(idPrefix + NatToString(n), labelPrefix + ids[n], kind, Some(ids[n]))]
  {
    var a := IndexedTags(idPrefix, labelPrefix, kind, ids[..n + 1]);
    var b := IndexedTags(idPrefix, labelPrefix, kind, ids[..n])
      + [FilterTag(idPrefix + NatToString(n), labelPrefix + ids[n], kind, Some(ids[n]))];
    assert |a| == |b|;
    forall i | 0 <= i < |a| ensures a[i] == b[i] {
      assert ids[..n + 1][i] == ids[i];
      if i < n {
        assert ids[..n][i] == ids[i];
      }
    }
  }

  // ---------------------------------------------------------------------------
  // Removing a tag.

  /** `activeFilterTags.find(tag => tag.id === tagId)`. */
  function FindTag(tags: seq<FilterTag>, tagId: string): (r: Option<FilterTag>)
    ensures r.Some? ==> r.value in tags && r.value.id == tagId
    ensures r.None? ==> forall i :: 0 <= i < |tags| ==> tags[i].id != tagId
  {
    if tags == [] then None
    else if tags[0].id == tagId then Some(tags[0])
    else
      var r := FindTag(tags[1..], tagId);
      assert forall i :: 1 <= i < |tags| ==> tags[i] == tags[1..][i - 1];
      r
  }

  /** `find` returns the first tag with the id. */
  lemma {:induction false} FindFirst(tags: seq<FilterTag>, tagId: string, i: nat)
    requires i < |tags| && tags[i].id == tagId
    requires forall j :: 0 <= j < i ==> tags[j].id != tagId
    ensures FindTag(tags, tagId) == Some(tags[i])
  {
    if i > 0 {
      FindFirst(tags[1..], tagId, i - 1);
    }
  }

  /** The value of a found tag, when it is a non-empty string (`tagData && tagData.value`). */
  function TruthyValue(t: Option<FilterTag>): Option<string> {
    if t.Some? && t.value.value.Some? && t.value.value.value != "" then t.value.value else None
  }

  /** `removeFilterTag(tagId)`. An `ovm-…` or `isvs-…` id removes every occurrence
      of the found tag's value from that list; 'search' and 'category' clear their
      field; 'date' resets the date choice and both bounds; anything else changes
      nothing. */
  function RemoveFilterTag(f: Filters, tagId: string): (g: Filters)
    ensures StartsWith(tagId, OVM_PREFIX) ==>
      g == match TruthyValue(FindTag(ActiveTags(f), tagId))
           case Some(v) => HandleFilterChange(f, OvmKey, Ids(Remove(f.ovm, v)))
           case None => f
    ensures !StartsWith(tagId, OVM_PREFIX) && StartsWith(tagId, ISVS_PREFIX) ==>
      g == match TruthyValue(FindTag(ActiveTags(f), tagId))
           case Some(v) => HandleFilterChange(f, IsvsKey, Ids(Remove(f.isvs, v)))
           case None => f
    ensures tagId == "search" ==> g == HandleFilterChange(f, SearchKey, Str(""))
    ensures tagId == "category" ==> g == HandleFilterChange(f, CategoryKey, Str(""))
    ensures tagId == "date" ==>
      g == HandleFilterChange(HandleFilterChange(HandleFilterChange(f, DateFilterKey, Choice(All)),
                                                 DateFromKey, Str("")), DateToKey, Str(""))
    ensures (!StartsWith(tagId, OVM_PREFIX) && !StartsWith(tagId, ISVS_PREFIX)
      && tagId !in ["search", "category", "date"]) ==> g == f
  {
    NamesNotIndexed();
    ScalarChanges(f);
    if StartsWith(tagId, OVM_PREFIX) then
      match TruthyValue(FindTag(ActiveTags(f), tagId))
      case Some(v) => ListChanges(f, Remove(f.ovm, v)); f.(ovm := Remove(f.ovm, v))
      case None => f
    else if StartsWith(tagId, ISVS_PREFIX) then
      match TruthyValue(FindTag(ActiveTags(f), tagId))
      case Some(v) => ListChanges(f, Remove(f.isvs, v)); f.(isvs := Remove(f.isvs, v))
      case None => f
    else
      match tagId
      case "search" => f.(search := "")
      case "category" => f.(category := "")
      case "date" => f.(dateFilter := All, dateFrom := "", dateTo := "")
      case _ => f
  }

  /** Setting a list through `handleFilterChange` replaces that list. */
  lemma ListChanges(f: Filters, l: seq<string>)
    ensures HandleFilterChange(f, OvmKey, Ids(l)) == f.(ovm := l)
    ensures HandleFilterChange(f, IsvsKey, Ids(l)) == f.(isvs := l)
  {
  }

  /** Clearing the scalar fields through `handleFilterChange`. */
  lemma ScalarChanges(f: Filters)
    ensures HandleFilterChange(f, SearchKey, Str("")) == f.(search := "")
    ensures HandleFilterChange(f, CategoryKey, Str("")) == f.(category := "")
    ensures HandleFilterChange(HandleFilterChange(HandleFilterChange(f, DateFilterKey, Choice(All)),
                                                  DateFromKey, Str("")), DateToKey, Str(""))
      == f.(dateFilter := All, dateFrom := "", dateTo := "")
  {
  }

  /** The plain tag ids do not look like list-entry ids. */
  lemma NamesNotIndexed()
    ensures forall name :: name in ["search", "category", "date"] ==>
      !StartsWith(name, OVM_PREFIX) && !StartsWith(name, ISVS_PREFIX)
  {
    assert "search"[0] == 's' && "category"[0] == 'c' && "date"[0] == 'd';
  }

  /** The id `ovm-<i>` finds the tag of the `i`-th authority. */
  lemma {:induction false} FindOvmTag(f: Filters, i: nat)
    requires i < |f.ovm|
    ensures FindTag(ActiveTags(f), OVM_PREFIX + NatToString(i))
      == Some(FilterTag(OVM_PREFIX + NatToString(i), "OVM: " + f.ovm[i], "ovm", Some(f.ovm[i])))
  {
    var id := OVM_PREFIX + NatToString(i);
    var pre := SearchTags(f) + CategoryTags(f);
    assert ActiveTags(f) == pre + OvmTags(f) + (IsvsTags(f) + DateTags(f));
    forall j | 0 <= j < |pre| ensures pre[j].id != id {
      assert id[0] == 'o';
    }
    forall j | 0 <= j < i ensures OvmTags(f)[j].id != id {
      OtherIndex(OVM_PREFIX, j, i);
    }
    FindInGroup(pre, OvmTags(f), IsvsTags(f) + DateTags(f), id, i);
  }

  /** The id `isvs-<i>` finds the tag of the `i`-th information system. */
  lemma {:induction false} FindIsvsTag(f: Filters, i: nat)
    requires i < |f.isvs|
    ensures FindTag(ActiveTags(f), ISVS_PREFIX + NatToString(i))
      == Some(FilterTag(ISVS_PREFIX + NatToString(i), "ISVS: " + f.isvs[i], "isvs", Some(f.isvs[i])))
  {
    var id := ISVS_PREFIX + NatToString(i);
    var pre := SearchTags(f) + CategoryTags(f) + OvmTags(f);
    forall j | 0 <= j < |pre| ensures pre[j].id != id {
      assert id[0] == 'i';
      if j >= |SearchTags(f) + CategoryTags(f)| {
        assert pre[j] == OvmTags(f)[j - |SearchTags(f) + CategoryTags(f)|];
      }
    }
    forall j | 0 <= j < i ensures IsvsTags(f)[j].id != id {
      OtherIndex(ISVS_PREFIX, j, i);
    }
    FindInGroup(pre, IsvsTags(f), DateTags(f), id, i);
  }

  /** A tag of a group is found when no tag before it has its id. */
  lemma {:induction false} FindInGroup(pre: seq<FilterTag>, group: seq<FilterTag>, post: seq<FilterTag>, id: string, i: nat)
    requires i < |group| && group[i].id == id
    requires forall j :: 0 <= j < |pre| ==> pre[j].id != id
    requires forall j :: 0 <= j < i ==> group[j].id != id
    ensures FindTag(pre + group + post, id) == Some(group[i])
  {
    var tags := pre + group + post;
    forall j | 0 <= j < |pre| + i ensures tags[j].id != id {
      if j < |pre| {
        assert tags[j] == pre[j];
      } else {
        assert tags[j] == group[j - |pre|];
      }
    }
    assert tags[|pre| + i] == group[i];
    FindFirst(tags, id, |pre| + i);
  }

  /** Different indices give different tag ids. */
  lemma {:induction false} OtherIndex(prefix: string, j: nat, i: nat)
    requires j != i
    ensures prefix + NatToString(j) != prefix + NatToString(i)
  {
    if prefix + NatToString(j) == prefix + NatToString(i) {
      assert (prefix + NatToString(j))[|prefix|..] == NatToString(j);
      assert (prefix + NatToString(i))[|prefix|..] == NatToString(i);
      NatToStringInjective(j, i);
    }
  }

  /** Removing the tag of the `i`-th authority drops every occurrence of that id
      from the authority list and changes no other field; an empty id is falsy and
      changes nothing. */
  lemma {:induction false} RemoveOvmTag(f: Filters, i: nat)
    requires i < |f.ovm|
    ensures f.ovm[i] != "" ==>
      RemoveFilterTag(f, OVM_PREFIX + NatToString(i)) == f.(ovm := Remove(f.ovm, f.ovm[i]))
    ensures f.ovm[i] == "" ==> RemoveFilterTag(f, OVM_PREFIX + NatToString(i)) == f
    ensures f.ovm[i] !in RemoveFilterTag(f, OVM_PREFIX + NatToString(i)).ovm || f.ovm[i] == ""
  {
    FindOvmTag(f, i);
    assert StartsWith(OVM_PREFIX + NatToString(i), OVM_PREFIX) by {
      assert (OVM_PREFIX + NatToString(i))[..|OVM_PREFIX|] == OVM_PREFIX;
    }
  }

  /** The same for the `i`-th information system. */
  lemma {:induction false} RemoveIsvsTag(f: Filters, i: nat)
    requires i < |f.isvs|
    ensures f.isvs[i] != "" ==>
      RemoveFilterTag(f, ISVS_PREFIX + NatToString(i)) == f.(isvs := Remove(f.isvs, f.isvs[i]))
    ensures f.isvs[i] == "" ==> RemoveFilterTag(f, ISVS_PREFIX + NatToString(i)) == f
    ensures f.isvs[i] !in RemoveFilterTag(f, ISVS_PREFIX + NatToString(i)).isvs || f.isvs[i] == ""
  {
    var id := ISVS_PREFIX + NatToString(i);
    IsvsIdPrefixes(id, NatToString(i));
    FindIsvsTag(f, i);
    assert TruthyValue(FindTag(ActiveTags(f), id)) == if f.isvs[i] != "" then Some(f.isvs[i]) else None;
    RemoveIsvsId(f, id);
  }

  /** An id built on the system prefix is routed to the system list. */
  lemma IsvsIdPrefixes(id: string, suffix: string)
    requires id == ISVS_PREFIX + suffix
    ensures StartsWith(id, ISVS_PREFIX) && !StartsWith(id, OVM_PREFIX)
  {
    assert id[..|ISVS_PREFIX|] == ISVS_PREFIX;
    assert id[0] == 'i';
  }

  /** An `isvs-…` id removes the found value from the system list, if it is truthy. */
  lemma {:induction false} RemoveIsvsId(f: Filters, id: string)
    requires StartsWith(id, ISVS_PREFIX) && !StartsWith(id, OVM_PREFIX)
    ensures RemoveFilterTag(f, id) == match TruthyValue(FindTag(ActiveTags(f), id))
      case Some(v) => f.(isvs := Remove(f.isvs, v))
      case None => f
  {
    match TruthyValue(FindTag(ActiveTags(f), id))
    case Some(v) =>
      assert RemoveFilterTag(f, id) == HandleFilterChange(f, IsvsKey, Ids(Remove(f.isvs, v)));
    case None =>
  }

  /** Removing the search, category or date tag removes exactly that tag from the
      tag list. */
  lemma {:induction false} RemoveNamedTag(f: Filters, tagId: string)
    requires tagId in ["search", "category", "date"]
    ensures ActiveTags(RemoveFilterTag(f, tagId)) == Filter(ActiveTags(f), IdIsNot(tagId))
  {
    var g := RemoveFilterTag(f, tagId);
    var p := IdIsNot(tagId);
    var S, C, O, I, D := SearchTags(f), CategoryTags(f), OvmTags(f), IsvsTags(f), DateTags(f);
    FilterAppend(S + C + O + I, D, p);
    FilterAppend(S + C + O, I, p);
    FilterAppend(S + C, O, p);
    FilterAppend(S, C, p);
    NamedTagParts(f, tagId);
  }

  /** Part by part: the removed name's tag goes, every other tag stays. */
  lemma {:induction false} NamedTagParts(f: Filters, tagId: string)
    requires tagId in ["search", "category", "date"]
    ensures var g, p := RemoveFilterTag(f, tagId), IdIsNot(tagId);
      && Filter(SearchTags(f), p) == SearchTags(g)
      && Filter(CategoryTags(f), p) == CategoryTags(g)
      && Filter(OvmTags(f), p) == OvmTags(g)
      && Filter(IsvsTags(f), p) == IsvsTags(g)
      && Filter(DateTags(f), p) == DateTags(g)
  {
    ListTagsKept(f, tagId);
    ScalarTagParts(f, tagId);
  }

  /** A plain name leaves the list-entry tags alone. */
  lemma {:induction false} ListTagsKept(f: Filters, tagId: string)
    requires tagId in ["search", "category", "date"]
    ensures var g, p := RemoveFilterTag(f, tagId), IdIsNot(tagId);
      && Filter(OvmTags(f), p) == OvmTags(g)
      && Filter(IsvsTags(f), p) == IsvsTags(g)
  {
    var g := RemoveFilterTag(f, tagId);
    NamesNotIndexed();
    IndexedTagsNamed(OVM_PREFIX, "OVM: ", "ovm", f.ovm, tagId);
    IndexedTagsNamed(ISVS_PREFIX, "ISVS: ", "isvs", f.isvs, tagId);
    assert g.ovm == f.ovm && g.isvs == f.isvs;
  }

  /** A plain name removes its own scalar tag and keeps the other two. */
  lemma {:induction false} ScalarTagParts(f: Filters, tagId: string)
    requires tagId in ["search", "category", "date"]
    ensures var g, p := RemoveFilterTag(f, tagId), IdIsNot(tagId);
      && Filter(SearchTags(f), p) == SearchTags(g)
      && Filter(CategoryTags(f), p) == CategoryTags(g)
      && Filter(DateTags(f), p) == DateTags(g)
  {
    SearchTagPart(f, tagId);
    CategoryTagPart(f, tagId);
    DateTagPart(f, tagId);
  }

  lemma SearchTagPart(f: Filters, tagId: string)
    requires tagId in ["search", "category", "date"]
    ensures Filter(SearchTags(f), IdIsNot(tagId)) == SearchTags(RemoveFilterTag(f, tagId))
  {
    SingleTagFilter(SearchTags(f), IdIsNot(tagId));
    ScalarRemoved(f, tagId);
  }

  lemma CategoryTagPart(f: Filters, tagId: string)
    requires tagId in ["search", "category", "date"]
    ensures Filter(CategoryTags(f), IdIsNot(tagId)) == CategoryTags(RemoveFilterTag(f, tagId))
  {
    SingleTagFilter(CategoryTags(f), IdIsNot(tagId));
    ScalarRemoved(f, tagId);
  }

  lemma DateTagPart(f: Filters, tagId: string)
    requires tagId in ["search", "category", "date"]
    ensures Filter(DateTags(f), IdIsNot(tagId)) == DateTags(RemoveFilterTag(f, tagId))
  {
    SingleTagFilter(DateTags(f), IdIsNot(tagId));
    ScalarRemoved(f, tagId);
  }

  /** What removing a plain tag does to the filters. */
  lemma ScalarRemoved(f: Filters, tagId: string)
    requires tagId in ["search", "category", "date"]
    ensures tagId == "search" ==> RemoveFilterTag(f, tagId) == f.(search := "")
    ensures tagId == "category" ==> RemoveFilterTag(f, tagId) == f.(category := "")
    ensures tagId == "date" ==> RemoveFilterTag(f, tagId) == f.(dateFilter := All, dateFrom := "", dateTo := "")
  {
    NamesNotIndexed();
  }

  function IdIsNot(tagId: string): FilterTag -> bool {
    (t: FilterTag) => t.id != tagId
  }

  /** No list-entry tag has a plain name as its id. */
  lemma {:induction false} IndexedTagsNamed(idPrefix: string, labelPrefix: string, kind: string, ids: seq<string>, tagId: string)
    requires idPrefix in [OVM_PREFIX, ISVS_PREFIX] && tagId in ["search", "category", "date"]
    ensures Filter(IndexedTags(idPrefix, labelPrefix, kind, ids), IdIsNot(tagId))
      == IndexedTags(idPrefix, labelPrefix, kind, ids)
  {
    var tags := IndexedTags(idPrefix, labelPrefix, kind, ids);
    forall t | t in tags ensures IdIsNot(tagId)(t) {
      var i :| 0 <= i < |tags| && tags[i] == t;
      assert t.id[0] == idPrefix[0];
    }
    FilterAll(tags, IdIsNot(tagId));
  }

  lemma {:induction false} SingleTagFilter(tags: seq<FilterTag>, p: FilterTag -> bool)
    requires |tags| <= 1
    ensures Filter(tags, p) == if tags != [] && p(tags[0]) then tags else []
  {
    if tags != [] {
      assert Filter(tags, p) == (if p(tags[0]) then [tags[0]] else []) + Filter(tags[1..], p);
      assert tags == [tags[0]];
    }
  }

  // ---------------------------------------------------------------------------
  // Clearing.

  /** `clearAllFilters` restores the initial state, which has no tags. */
  function ClearAllFilters(f: Filters): (g: Filters)
    ensures g == INITIAL_FILTERS
    ensures ActiveTags(g) == []
  {
    INITIAL_FILTERS
  }

  /** The tag list is empty exactly for the states that filter nothing. */
  lemma {:induction false} NoTagsMeansCleared(f: Filters)
    ensures ActiveTags(f) == [] <==>
      f.search == "" && f.category == "" && f.ovm == [] && f.isvs == [] && f.dateFilter == All
  {
    ActiveTagsCount(f);
  }

  // ---------------------------------------------------------------------------
  // The page state.

  /** The page's state: the filters, the sort order, the records fetched for the
      current filters, their sorted copy that the list shows, and the loading flag. */
  class AppState {
    var filters: Filters
    var sortOrder: SortOrder
    var events: seq<Event>
    var filteredEvents: seq<Event>
    var loading: bool

    constructor ()
      ensures filters == INITIAL_FILTERS && sortOrder == Newest
      ensures events == [] && filteredEvents == [] && loading
    {
      filters := INITIAL_FILTERS;
      sortOrder := Newest;
      events := [];
      filteredEvents := [];
      loading := true;
    }

    /** `loadEvents`: fetch with the mapped filters, keep the result, show it sorted.
        The key is the parsed start (`StartTime`), so `SortedByStart` gives the shown
        list's order by start time. */
    method LoadEvents(store: seq<Event>, c: Clock, parse: Parser, time: Event -> int)
      requires StartTime(time, parse)
      modifies this
      ensures events == EventsApi.Query(store, ToApiFilters(filters), c, parse)
      ensures filteredEvents == SortEvents(events, sortOrder, time)
      ensures multiset(filteredEvents) == multiset(events)
      ensures !loading
      ensures filters == old(filters) && sortOrder == old(sortOrder)
    {
      loading := true;
      var data := EventsApi.FetchEvents(store, ToApiFilters(filters), c, parse);
      var sorted := SortEvents(data, sortOrder, time);
      events, filteredEvents := data, sorted;
      loading := false;
    }

    /** `handleFiltersChange`: the panel's new state replaces the filters. */
    method HandleFiltersChange(newFilters: Filters)
      modifies this
      ensures filters == newFilters
      ensures sortOrder == old(sortOrder) && events == old(events)
      ensures filteredEvents == old(filteredEvents) && loading == old(loading)
    {
      filters := newFilters;
    }

    /** The sort selector. */
    method SetSortOrder(order: SortOrder)
      modifies this
      ensures sortOrder == order
      ensures filters == old(filters) && events == old(events)
      ensures filteredEvents == old(filteredEvents) && loading == old(loading)
    {
      sortOrder := order;
    }

    function ActiveFilterTags(): seq<FilterTag>
      reads this
    {
      ActiveTags(filters)
    }

    function Counts(c: Clock, parse: Parser): EventCounts
      reads this
    {
      GetEventsCount(events, c, parse)
    }

    /** A tag's remove button. */
    method RemoveTag(tagId: string)
      modifies this
      ensures filters == RemoveFilterTag(old(filters), tagId)
      ensures sortOrder == old(sortOrder) && events == old(events)
      ensures filteredEvents == old(filteredEvents) && loading == old(loading)
    {
      filters := RemoveFilterTag(filters, tagId);
    }

    /** The clear-all button. */
    method ClearAll()
      modifies this
      ensures filters == INITIAL_FILTERS && ActiveFilterTags() == []
      ensures sortOrder == old(sortOrder) && events == old(events)
      ensures filteredEvents == old(filteredEvents) && loading == old(loading)
    {
      filters := ClearAllFilters(filters);
    }
  }
}
