# ropim_calendar: the filter-and-query core, in Dafny

This project models the calendar of planned events in the Czech public
administration ("Plánované události"). It covers the logic that decides which
event records the page lists and how it lists them:

- **Query engine** (`fetchEvents`). It drops the placeholder records, then applies each
  active filter in turn:
  - free-text search over six fields;
  - category;
  - authority (OVM) ids;
  - information system (ISVS) ids;
  - a symbolic period or a custom from/to range.
- **Page state** (`App`):
  - mapping the panel's filters to the query;
  - sorting by start time;
  - the four period counters;
  - the active-filter tags, removing one tag, and clearing all filters.
- **Filter panel**: replacing one field, the single-choice category checkboxes, and
  the options handed to the two autocomplete widgets.
- **Calendar helpers** (`dateUtils`): week, month and year boundaries as
  proleptic-Gregorian arithmetic, their `yyyy-mm-dd` strings, and the range tests.
- **Autocomplete widgets**:
  - the single-value search field (wrapping highlight);
  - the multi-select for authorities and systems (clamped focus, no duplicate
    selection).
- **Offline export** (`fetch_database_data.py`):
  - row conversion and the fallback title;
  - the category counts;
  - the authority list;
  - the information-system list;
  - the search suggestions with their mention counts.
- **Event list**: description truncation, the date and time texts, the category,
  risk and status tags, the title and id fallbacks, and the loading and empty
  states.

There is one Dafny module per source file: `EventsApi`, `App`, `EventFilters`,
`DateUtils`, `AutocompleteInput`, `MultiSelectAutocomplete`, `FetchDatabaseData` and
`EventsList`. `EventTypes` holds the record type of `src/types/Event.ts`. Shared
helpers live in `Wrappers`, `Seqs`, `Text`, `PyText` and `Time`.

**What becomes a parameter.** Anything the code reads from the outside world is an
argument:

- **Parsing.** Date parsing (`new Date(s)`) is a function `string -> Option<int>`,
  where `None` is an Invalid Date. Every comparison with `None` is false, as comparisons
  with NaN are.
- **The clock.** "Now" and the period boundaries the code derives from
  `new Date()` form a `Clock` value. `Time.WellFormed` states how those boundaries
  relate on a real calendar.
- **State.** The page, the two widgets and the loops of the export are imperative,
  as in the source:
  - the page is the class `App.AppState`, whose methods replace its fields;
  - each widget is a class `Widget`;
  - the export's loops are methods with loop invariants, each proved against a
    function that specifies it.

**Behaviour the model keeps as the code has it:**

- **Three different week rules.**
  - `getDateRange` starts the week on Sunday.
  - `getEventsCount` starts it at `getDate() - getDay() + 1`. On a Sunday that is the
    next Monday, so a record starting today is counted for today but not for the
    week (`App.SundayWeekSkipsToday`).
  - `dateUtils` uses the Monday of the week, with Sunday mapped back six days.
- **Period ends are included.** The symbolic-period test includes both ends, although
  the end is the next midnight or the start of the next period
  (`EventsApi.PeriodEndsIncluded`).
- **Authority names.** `get_unique_urady` names an authority after the *last* record
  with that id, even when that record has no abbreviation and an earlier one had one
  (`FetchDatabaseData.LastRecordWins`).
- **Suggestion counts.** The count fallback `word_counts.get(suggestion, 1)` never
  applies. Every collected suggestion occurs in the text of the record it came from,
  so its count is at least 1 (`FetchDatabaseData.SuggestionMentioned`).
- **Placeholder titles.**
  - The export gives a record with no title and no category the title
    `Událost #<id>.0`, because Python's `str` of a float ends in `.0`. That is
    exactly the placeholder shape the query drops (`FetchDatabaseData.FallbackIsPlaceholder`).
  - The title `Událost #<id>` that the list shows for an untitled record does not
    have the placeholder shape (`EventsList.FallbackTitle`).

## Model

| member | source | states |
|---|---|---|
| EventsApi.IdList | src/api/eventsApi.ts:114-130 | an absent field, an empty string and an empty list constrain nothing; a single id is a one-element list; a list is itself |
| EventsApi.GetDateRange | src/api/eventsApi.ts:52-82 | a range exists iff the token is today, week, month or year; today spans exactly one day from midnight; the week starts `weekday` days before today and spans 7 days; month and year run from the first of the period to the first of the next |
| EventsApi.IsDateInRange | src/api/eventsApi.ts:45-49 | the reference definition of the period test: a non-empty start that parses and lies in the interval, both ends included; `PeriodEndsIncluded` proves both ends of every period pass it |
| EventsApi.FetchEvents | src/api/eventsApi.ts:86-161 | the stage-by-stage reassignment of `filteredEvents` yields exactly the single-pass query `Query` |
| EventsApi.Query | src/api/eventsApi.ts:86-161 | the single-pass reference definition of the query; `FetchEvents` is proved equal to it and `QueryMembership`, `QueryIdempotent` and `QueryAppend` state what it keeps |
| EventsApi.QueryMembership | src/api/eventsApi.ts:91-160 | the result is a subsequence of the store in its order, and a record is in it iff it is in the store, is not a placeholder and passes every active filter |
| EventsApi.NoPlaceholderResults | src/api/eventsApi.ts:91-93 | no result has a title of the form `Událost #<digits>.0`, whatever the filters |
| EventsApi.PlaceholderShape | src/api/eventsApi.ts:92 | `Událost #<n>.0` matches the placeholder pattern for every n |
| EventsApi.IsPlaceholderTitle | src/api/eventsApi.ts:91-93 | the reference definition of `/^Událost #\d+\.0$/`: the prefix, at least one ASCII digit, then `.0` at the end; `PlaceholderShape` proves every such title matches and `NoPlaceholderResults` that none survives the query |
| EventsApi.NoFilters | src/api/eventsApi.ts:86-161 | with every filter inactive, the query only drops the placeholders |
| EventsApi.QueryIdempotent | src/api/eventsApi.ts:86-161 | running the query on its own result changes nothing |
| EventsApi.QueryAppend | src/api/eventsApi.ts:86-161 | each record is judged on its own: the query of a concatenation is the concatenation of the queries |
| EventsApi.SearchNarrows | src/api/eventsApi.ts:96-106 | a non-empty term narrows the unsearched query to the matching records; an empty term imposes nothing |
| EventsApi.SearchSemantics | src/api/eventsApi.ts:96-106 | with a non-empty term, a record matches iff the lower-cased term occurs in the lower-cased title, description, organiser, place, category or system abbreviation |
| EventsApi.MatchesSearch | src/api/eventsApi.ts:96-106 | the reference definition of the free-text test: the term occurs in one of the six lower-cased non-empty fields; `SearchSemantics` states it field by field |
| EventsApi.SearchCaseInsensitive | src/api/eventsApi.ts:97 | lower-casing the term first gives the same query |
| EventsApi.CategoryNarrows | src/api/eventsApi.ts:108-112 | a non-empty category keeps exactly the records of that category; an empty one imposes nothing |
| EventsApi.OvmNarrows | src/api/eventsApi.ts:114-121 | a non-empty id list keeps exactly the records whose authority is listed; an empty one imposes nothing |
| EventsApi.IsvsNarrows | src/api/eventsApi.ts:123-130 | the same for the information-system abbreviation |
| EventsApi.SingleIdIsList | src/api/eventsApi.ts:115-116 | a single id string filters as the one-element list holding it, for both fields |
| EventsApi.OvmGrowMonotone | src/api/eventsApi.ts:114-121 | growing a non-empty authority list only adds records: the old result is a subsequence of the new one |
| EventsApi.IsvsGrowMonotone | src/api/eventsApi.ts:123-130 | the same for the information-system list |
| EventsApi.PeriodNarrows | src/api/eventsApi.ts:133-139 | a known period narrows the undated query to the records whose start parses into the closed range |
| EventsApi.UnknownPeriodIgnoresBounds | src/api/eventsApi.ts:133-140 | an unknown period token imposes nothing, and the custom bounds are not consulted either |
| EventsApi.CustomNarrows | src/api/eventsApi.ts:140-158 | with no period (or 'custom') and a bound set, the undated query is narrowed by the from/to test |
| EventsApi.PeriodEndsIncluded | src/api/eventsApi.ts:45-49 | a record starting exactly at the range start or exactly at its end (the next midnight, week, month or year start) is kept; today's range reaches the next midnight |
| EventsApi.PeriodContainsNow | src/api/eventsApi.ts:52-82 | on a well-formed clock every symbolic period contains the current instant |
| EventsApi.CustomRangeSemantics | src/api/eventsApi.ts:140-158 | when all three dates parse, the test is the closed interval from `dateFrom` to the last millisecond of `dateTo`'s day |
| EventsApi.WithinCustomRange | src/api/eventsApi.ts:140-158 | the reference definition of the from/to test with the NaN comparisons of unparsable dates; `CustomRangeSemantics` and `CustomRangeEdges` characterise it |
| EventsApi.CustomRangeEdges | src/api/eventsApi.ts:140-158 | a record without a start is never kept; a start that does not parse passes; when neither bound is set or parses, every record with a start passes |
| EventsApi.WithoutDates | src/api/eventsApi.ts:133-158 | the filters with every date constraint removed and the other fields unchanged |
| App.DateToken | src/App.tsx:42 | every date choice other than 'all' maps to one of the query's tokens |
| App.ToApiFilters | src/App.tsx:37-45 | 'all' becomes an absent date filter, every other choice its token; search, category, ovm, isvs, dateFrom and dateTo pass unchanged |
| App.PanelTokensKnown | src/App.tsx:42 | the period choices of the panel are exactly the tokens `getDateRange` knows; 'all' and 'custom' take the custom branch |
| App.InitialQuery | src/App.tsx:14-22 | the initial filters query every non-placeholder record |
| App.SortEvents | src/App.tsx:51-60 | the sorted list is a permutation of the fetched data, ordered by the rank of the start time; records of equal rank keep their input order (`SortStable`) |
| App.SortEventsOrder | src/App.tsx:51-60 | start times are non-increasing for 'newest' and non-decreasing for 'oldest' |
| App.Rank | src/App.tsx:51-60 | the reference definition of the comparator key: the negated start time for newest, the start time for oldest; `SortEventsOrder` turns ascending rank into the two directions of `dateB - dateA` and `dateA - dateB` |
| App.SortStable | src/App.tsx:51-60 | the records of any one rank appear in the sorted list exactly as, and in the order, they appear in the input: the sort is stable |
| App.InsertStable | src/App.tsx:51-60 | inserting a record into an ordered list places it after all records of its rank, so each rank's records keep their order |
| App.SortedByStart | src/App.tsx:51-60 | when the key is the parsed `datum_zacatek`, the sorted list is newest first or oldest first by parsed start among the records whose start parses |
| App.SortKeepsSorted | src/App.tsx:51-60 | an already ordered list is left unchanged |
| App.Insert | src/App.tsx:51-60 | one insertion step of the sort keeps the multiset and adds one element |
| App.InsertOrdered | src/App.tsx:51-60 | inserting into an ordered list keeps it ordered |
| App.OrderedSorted | src/App.tsx:51-60 | order between neighbours gives order between all pairs |
| App.SortedOrdered | src/App.tsx:51-60 | order between all pairs gives order between neighbours |
| App.CountIn | src/App.tsx:96-111 | a window never counts more records than there are |
| App.GetEventsCount | src/App.tsx:75-113 | all zeros for no records; otherwise each counter is the number of records whose start lies in its inclusive window, and none exceeds the number of records |
| App.WindowEnds | src/App.tsx:85-93 | each window closes one millisecond before the next day, week, month or year starts |
| App.CountInMonotone | src/App.tsx:96-111 | a window inside another counts no more records |
| App.CountsNested | src/App.tsx:75-113 | today's count is at most the month's, which is at most the year's, which is at most the number of records |
| App.WeekCountsToday | src/App.tsx:80-81 | from Monday to Saturday the week window contains today and now |
| App.SundayWeekSkipsToday | src/App.tsx:80-81 | on a Sunday the week window starts the next day, so a record starting now counts for today but not for the week |
| App.IndexedTags | src/App.tsx:144-161 | one tag per list entry, with id `<prefix><index>`, the entry behind the label prefix and as the value |
| App.ActiveTagsCount | src/App.tsx:124-180 | the number of tags is [search set] + [category set] + number of authorities + number of systems + [date not 'all'] |
| App.ActiveTags | src/App.tsx:124-180 | the reference definition of the tag list: search, category, one tag per authority, one per system, then the date, each only when set; `GetActiveFilterTags` is proved equal to it and `ActiveTagsCount` counts it |
| App.DateLabel | src/App.tsx:163-174 | the label table of the date tag, `Datum` for the one choice the tag is never built for; `GetActiveFilterTags` and `ActiveTags` use it |
| App.GetActiveFilterTags | src/App.tsx:124-180 | the pushes build exactly the reference list: search, category, authorities, systems, date |
| App.PushIndexedTags | src/App.tsx:144-161 | the `forEach` loop appends the indexed tags of the list |
| App.FindTag | src/App.tsx:186 | a found tag is in the list and has the id; no tag found means no tag has the id |
| App.FindFirst | src/App.tsx:186 | `find` returns the first tag with the id |
| App.RemoveFilterTag | src/App.tsx:182-212 | an `ovm-…` or `isvs-…` id removes every occurrence of the found value from that list only; 'search' and 'category' clear that field; 'date' resets the choice and both bounds; any other id changes nothing |
| App.FindOvmTag | src/App.tsx:144-151 | the id `ovm-<i>` finds the tag of the i-th authority |
| App.FindIsvsTag | src/App.tsx:154-161 | the id `isvs-<i>` finds the tag of the i-th system |
| App.RemoveOvmTag | src/App.tsx:185-189 | removing the tag of the i-th authority drops every occurrence of its id and changes no other field; an empty id is not truthy, so nothing changes |
| App.RemoveIsvsTag | src/App.tsx:190-194 | the same for the i-th information system |
| App.RemoveIsvsId | src/App.tsx:190-194 | an `isvs-…` id removes the found tag's value when it is truthy, and changes nothing otherwise |
| App.RemoveNamedTag | src/App.tsx:195-209 | removing the search, category or date tag removes exactly the tags with that id from the tag list |
| App.NamesNotIndexed | src/App.tsx:185-196 | the plain tag ids do not start with `ovm-` or `isvs-` |
| App.OtherIndex | src/App.tsx:146 | different indices give different tag ids |
| App.ClearAllFilters | src/App.tsx:214-224 | the result is the initial state, which has no tags |
| App.NoTagsMeansCleared | src/App.tsx:124-180 | the tag list is empty exactly when search and category are empty, both lists are empty and the choice is 'all' |
| App.AppState.constructor | src/App.tsx:8-24 | the initial filters, 'newest', no records, loading |
| App.AppState.LoadEvents | src/App.tsx:31-69 | with the sort key tied to the parsed start time, the records become the query under the mapped filters and the shown list their stable sort by start; loading ends; filters and sort order are unchanged |
| App.AppState.HandleFiltersChange | src/App.tsx:71-73 | the filters are replaced and nothing else changes |
| App.AppState.SetSortOrder | src/App.tsx:319 | the sort order is replaced and nothing else changes |
| App.AppState.RemoveTag | src/App.tsx:182-212 | the filters become `RemoveFilterTag` of the old ones; nothing else changes |
| App.AppState.ClearAll | src/App.tsx:214-224 | the filters become the initial state and no tag remains; nothing else changes |
| EventFilters.Get | src/components/EventFilters.tsx:15-23 | a field's value has the field's type |
| EventFilters.FieldsDetermine | src/components/EventFilters.tsx:15-23 | two filter states with equal fields are equal |
| EventFilters.HandleFilterChange | src/components/EventFilters.tsx:72-77 | field k becomes v and every other field keeps its value |
| EventFilters.ChangeThenRestore | src/components/EventFilters.tsx:72-77 | writing a field's old value back undoes a change |
| EventFilters.ChangesCommute | src/components/EventFilters.tsx:72-77 | changes to two different fields commute |
| EventFilters.DateRadioKeepsBounds | src/components/EventFilters.tsx:176-226 | a date radio writes only the choice; the custom bounds keep their values |
| EventFilters.HandleCategoryToggle | src/components/EventFilters.tsx:79-82 | checking selects that category, unchecking selects none; no other field changes |
| EventFilters.IsCategoryChecked | src/components/EventFilters.tsx:124 | the reference definition of a checked box: the category's name is the selected one; `HandleCategoryToggle` and `AtMostOneCategory` state how toggling changes it |
| EventFilters.VisibleCategories | src/components/EventFilters.tsx:120 | exactly the categories with a positive count, in their order, each as often as in the input; every category with no events is dropped |
| EventFilters.AtMostOneCategory | src/components/EventFilters.tsx:79-125 | any two checked boxes show the same name; after a toggle the checked boxes are exactly those of the new selection |
| EventFilters.SearchOption | src/components/EventFilters.tsx:85-89 | id and label are copied; there is a description iff the count exceeds 1, and it is the count followed by `×` |
| EventFilters.SearchOptions | src/components/EventFilters.tsx:85-89 | one option per suggestion, in order |
| EventFilters.OvmOptions | src/components/EventFilters.tsx:140-143 | one option per authority: its id and its name |
| EventFilters.IsvsOptions | src/components/EventFilters.tsx:156-159 | one option per system: the abbreviation as id, `<abbreviation> - <name>` as label |
| DateUtils.DaysInMonth | src/utils/dateUtils.ts:60 | every month has 28 to 31 days |
| DateUtils.MonthTable | src/utils/dateUtils.ts:60 | the cumulative month table agrees with the month lengths and adds up to the year |
| DateUtils.YearStep | src/utils/dateUtils.ts:36 | consecutive years are one year length apart in day numbers |
| DateUtils.DayNumberMonotone | src/utils/dateUtils.ts:36 | day numbers follow calendar order |
| DateUtils.DayNumberInjective | src/utils/dateUtils.ts:36 | a date is determined by its day number |
| DateUtils.Weekday | src/utils/dateUtils.ts:33 | `getDay()` lies in 0..6 |
| DateUtils.Epoch | src/utils/dateUtils.ts:33 | 1 January 1970 is a Thursday |
| DateUtils.NextDay | src/utils/dateUtils.ts:36 | the next day is a valid date one day number later |
| DateUtils.PrevDay | src/utils/dateUtils.ts:36 | the previous day is a valid date one day number earlier |
| DateUtils.ShiftDays | src/utils/dateUtils.ts:36 | `setDate(getDate() + k)` gives a valid date k day numbers later, rolling over months and years |
| DateUtils.NewDate | src/utils/dateUtils.ts:53-74 | `new Date(y, m, d)` normalises the month and the day; a year from 0 to 99 means 1900 to 1999 |
| DateUtils.MondayOffset | src/utils/dateUtils.ts:33-34 | the offset lies in [-6, 0] and lands on a Monday |
| DateUtils.SundayOffset | src/utils/dateUtils.ts:43-44 | the offset lies in [0, 6] and lands on a Sunday |
| DateUtils.WeekSpan | src/utils/dateUtils.ts:34-44 | the Sunday offset exceeds the Monday offset by 6 |
| DateUtils.WeekdayShift | src/utils/dateUtils.ts:34-36 | moving k days moves the weekday by k modulo 7 |
| DateUtils.WeekStart | src/utils/dateUtils.ts:31-37 | a Monday, at most six days before today |
| DateUtils.WeekEnd | src/utils/dateUtils.ts:41-47 | a Sunday, at most six days after today |
| DateUtils.WeekLength | src/utils/dateUtils.ts:31-47 | the week's Sunday is its Monday plus six days |
| DateUtils.MonthBounds | src/utils/dateUtils.ts:51-61 | the month runs from its first day to its last; the next day is a first of the month |
| DateUtils.YearBounds | src/utils/dateUtils.ts:65-75 | the year runs from 1 January to 31 December; the next day is 1 January of the next year |
| DateUtils.TwoDigitYear | src/utils/dateUtils.ts:67 | in the year 50 the year start falls in 1950 |
| DateUtils.ParseIsoDate | src/utils/dateUtils.ts:27 | a parsed string has ten characters with dashes at 4 and 7 |
| DateUtils.IsoDate | src/utils/dateUtils.ts:27 | the `yyyy-mm-dd` text of `toISOString().split('T')[0]`; `IsoDateRoundTrip` reads every such text back and `IsoDateInjective` makes it one-to-one |
| DateUtils.IsoDateRoundTrip | src/utils/dateUtils.ts:27 | for years 0 to 9999 the `yyyy-mm-dd` string reads back as the date |
| DateUtils.IsoDateInjective | src/utils/dateUtils.ts:27 | different dates have different strings |
| DateUtils.GetTodayString | src/utils/dateUtils.ts:25-28 | the string reads back as today |
| DateUtils.GetWeekStartString | src/utils/dateUtils.ts:31-37 | the string reads back as the week's Monday |
| DateUtils.GetWeekEndString | src/utils/dateUtils.ts:41-47 | the string reads back as the week's Sunday |
| DateUtils.GetMonthStartString | src/utils/dateUtils.ts:51-55 | the string reads back as the first of the month |
| DateUtils.GetMonthEndString | src/utils/dateUtils.ts:58-62 | the string reads back as the last day of the month |
| DateUtils.GetYearStartString | src/utils/dateUtils.ts:65-69 | the string reads back as 1 January |
| DateUtils.GetYearEndString | src/utils/dateUtils.ts:72-76 | the string reads back as 31 December |
| DateUtils.DateInRangeMeaning | src/utils/dateUtils.ts:79-85 | true iff all three strings parse and start ≤ date ≤ end; both ends are included |
| DateUtils.IsDateInRange | src/utils/dateUtils.ts:79-85 | the reference definition of the inclusive range test on three parsed dates; `DateInRangeMeaning` characterises it |
| DateUtils.IsToday | src/utils/dateUtils.ts:88-93 | the reference definition of `isToday`: the string's local calendar day is today; an Invalid Date matches no day |
| DateUtils.ThisWeekInstants | src/utils/dateUtils.ts:96-100 | the week test holds iff the instant lies from Monday 00:00 to Sunday 00:00, both included |
| DateUtils.IsThisWeek | src/utils/dateUtils.ts:96-100 | the range test between the week-start and week-end strings; `ThisWeekInstants` gives it in instants |
| DateUtils.WeekStrings | src/utils/dateUtils.ts:31-47 | the week's strings are those of its Monday and Sunday |
| DateUtils.WeekMidnights | src/utils/dateUtils.ts:31-47 | Sunday's midnight is six days after Monday's |
| DateUtils.InstantsInRange | src/utils/dateUtils.ts:79-85 | the range test on two date strings compares with their midnights |
| DateUtils.ThisMonthInstants | src/utils/dateUtils.ts:103-107 | the month test holds iff the instant lies from the first 00:00 to the last day's 00:00 |
| DateUtils.IsThisMonth | src/utils/dateUtils.ts:103-107 | the range test between the month-start and month-end strings; `ThisMonthInstants` gives it in instants |
| DateUtils.ThisYearInstants | src/utils/dateUtils.ts:110-114 | the year test holds iff the instant lies from 1 January 00:00 to 31 December 00:00 |
| DateUtils.IsThisYear | src/utils/dateUtils.ts:110-114 | the range test between the year-start and year-end strings; `ThisYearInstants` gives it in instants |
| AutocompleteInput.FilteredOptions | src/components/AutocompleteInput.tsx:38-48 | nothing for an empty or too short text; otherwise the first `maxSuggestions` options whose label or description contains the lower-cased text, in option order |
| AutocompleteInput.FilteredComplete | src/components/AutocompleteInput.tsx:42-47 | below the cap every matching option is listed |
| AutocompleteInput.MoreResultsMeaning | src/components/AutocompleteInput.tsx:182-211 | "more results" shows exactly when the dropdown is open, the cap is positive and the matches reach it |
| AutocompleteInput.NextIndex | src/components/AutocompleteInput.tsx:74-79 | ArrowDown moves one down and wraps from the last option to the first; the result is in range |
| AutocompleteInput.PrevIndex | src/components/AutocompleteInput.tsx:80-85 | ArrowUp moves one up and wraps from the first option, or from none, to the last |
| AutocompleteInput.ArrowKeysInverse | src/components/AutocompleteInput.tsx:74-85 | on a highlighted option, ArrowUp undoes ArrowDown and ArrowDown undoes ArrowUp |
| AutocompleteInput.DownTimes | src/components/AutocompleteInput.tsx:74-79 | after one or more presses the highlight is on an option |
| AutocompleteInput.DownSteps | src/components/AutocompleteInput.tsx:74-79 | below the last option, k presses move k places |
| AutocompleteInput.DownCompose | src/components/AutocompleteInput.tsx:74-79 | runs of presses compose |
| AutocompleteInput.DownFullCircle | src/components/AutocompleteInput.tsx:74-79 | n presses over n options come back to the same option |
| AutocompleteInput.Widget.constructor | src/components/AutocompleteInput.tsx:21-33 | closed, nothing highlighted |
| AutocompleteInput.Widget.InputChange | src/components/AutocompleteInput.tsx:51-56 | stores the text; open iff it is long enough; nothing highlighted |
| AutocompleteInput.Widget.OptionSelect | src/components/AutocompleteInput.tsx:59-67 | the text becomes the option's label; closed; nothing highlighted |
| AutocompleteInput.Widget.KeyDown | src/components/AutocompleteInput.tsx:70-97 | nothing while closed or empty; the arrows wrap; Enter on a highlight selects that option; Escape closes and drops the highlight |
| AutocompleteInput.Widget.Clear | src/components/AutocompleteInput.tsx:117-122 | empty text, closed, nothing highlighted, no options listed |
| AutocompleteInput.Widget.Focus | src/components/AutocompleteInput.tsx:124-128 | opens when the text is long enough; nothing else changes |
| AutocompleteInput.Widget.Close | src/components/AutocompleteInput.tsx:99-132 | closes the list; nothing else changes |
| AutocompleteInput.Widget.ParentClears | src/components/AutocompleteInput.tsx:38-39 | after the parent empties the text no option is listed |
| MultiSelectAutocomplete.FilteredOptions | src/components/MultiSelectAutocomplete.tsx:33-37 | nothing for a too short text; otherwise the first `maxSuggestions` unselected options whose label contains the text case-insensitively, in option order |
| MultiSelectAutocomplete.FewerSelectedMoreSuggestions | src/components/MultiSelectAutocomplete.tsx:33-37 | deselecting never shortens the suggestion list |
| MultiSelectAutocomplete.SelectedOptions | src/components/MultiSelectAutocomplete.tsx:40 | exactly the options whose id is selected, in option order |
| MultiSelectAutocomplete.AddUnique | src/components/MultiSelectAutocomplete.tsx:62-64 | appends the id only when absent, keeps the old list as a prefix, and never introduces a duplicate |
| MultiSelectAutocomplete.AddUniqueIdempotent | src/components/MultiSelectAutocomplete.tsx:62-64 | selecting an id twice is selecting it once |
| MultiSelectAutocomplete.SelectThenRemove | src/components/MultiSelectAutocomplete.tsx:61-73 | selecting an absent id and removing it restores the list |
| MultiSelectAutocomplete.FocusDown | src/components/MultiSelectAutocomplete.tsx:86-91 | ArrowDown moves one down and stops at the last option |
| MultiSelectAutocomplete.FocusUp | src/components/MultiSelectAutocomplete.tsx:92-95 | ArrowUp moves one up and stops at no focus (-1) |
| MultiSelectAutocomplete.FocusKeysStayInRange | src/components/MultiSelectAutocomplete.tsx:86-95 | both keys keep the focus in [-1, n-1] |
| MultiSelectAutocomplete.FocusDownClamped | src/components/MultiSelectAutocomplete.tsx:86-91 | k presses move k places and then stay on the last option |
| MultiSelectAutocomplete.Widget.constructor | src/components/MultiSelectAutocomplete.tsx:26-28 | empty text, closed, no focus |
| MultiSelectAutocomplete.Widget.InputChange | src/components/MultiSelectAutocomplete.tsx:54-59 | stores the text; open iff it is long enough; no focus; selection unchanged |
| MultiSelectAutocomplete.Widget.SelectOption | src/components/MultiSelectAutocomplete.tsx:61-69 | the id is added when absent; empty text, closed, no focus |
| MultiSelectAutocomplete.Widget.RemoveOption | src/components/MultiSelectAutocomplete.tsx:71-73 | every occurrence of the id goes and the others keep their order; nothing else changes |
| MultiSelectAutocomplete.Widget.ClearAll | src/components/MultiSelectAutocomplete.tsx:109-111 | nothing is selected; nothing else changes |
| MultiSelectAutocomplete.Widget.KeyDown | src/components/MultiSelectAutocomplete.tsx:75-107 | closed: ArrowDown opens with focus 0 only when the text is long enough; open: the arrows clamp; Enter selects only a focused existing option; Escape closes and drops the focus |
| MultiSelectAutocomplete.Widget.Focus | src/components/MultiSelectAutocomplete.tsx:148-151 | opens when the text is long enough; nothing else changes |
| MultiSelectAutocomplete.Widget.ClickOutside | src/components/MultiSelectAutocomplete.tsx:42-52 | closes the list and drops the focus; nothing else changes |
| FetchDatabaseData.Put | fetch_database_data.py:228 | `d[k] = v`: the value is set; a new key goes last and an existing key keeps its place |
| FetchDatabaseData.StrftimeShape | fetch_database_data.py:160 | `%Y-%m-%d %H:%M:%S` gives 19 characters with the separators in place, and each field reads back |
| FetchDatabaseData.Strftime | fetch_database_data.py:160 | the reference definition of `%Y-%m-%d %H:%M:%S` with zero-padded fields; `StrftimeShape` proves its layout and that each field reads back |
| FetchDatabaseData.ConvertValue | fetch_database_data.py:158-168 | None becomes '', a number with `__float__` a float, one with only `__int__` an int, a datetime its 19-character text, anything else its `str` |
| FetchDatabaseData.Converted | fetch_database_data.py:157-168 | the converted record has the same keys in the same order, each value converted |
| FetchDatabaseData.ConvertRow | fetch_database_data.py:157-168 | the loop fills exactly the converted record |
| FetchDatabaseData.FormatValue | fetch_database_data.py:173-175 | a truthy value formats to a non-empty text |
| FetchDatabaseData.WithFallbackTitle | fetch_database_data.py:170-175 | a truthy title is untouched; otherwise the title becomes `Událost <category> #<id>` or `Událost #<id>`; no other key changes |
| FetchDatabaseData.FallbackName | fetch_database_data.py:172-175 | the reference definition of the generated title; `FallbackIsPlaceholder` and `CategoryFallbackShown` state which of its forms the page hides |
| FetchDatabaseData.FallbackIsPlaceholder | fetch_database_data.py:175 | with no title and no category the generated title has the placeholder shape the query drops |
| FetchDatabaseData.CategoryFallbackShown | fetch_database_data.py:173 | a title generated with a category never has the placeholder shape |
| FetchDatabaseData.FetchEventsData | fetch_database_data.py:155-177 | one record per row: each row converted, then given its fallback title |
| FetchDatabaseData.Stripped | fetch_database_data.py:195-196 | the stripped non-empty values, at most one per record |
| FetchDatabaseData.WithDefaultsKeys | fetch_database_data.py:210-212 | after the defaults are added every key appears once, and the keys are exactly the seen values and the defaults |
| FetchDatabaseData.AddMissing | fetch_database_data.py:270-272 | the loop over the defaults appends each missing one with its value and keeps every existing entry |
| FetchDatabaseData.Assign | fetch_database_data.py:228 | one dictionary assignment keeps the keys in first-appearance order |
| FetchDatabaseData.Tally | fetch_database_data.py:197-200 | one counting step keeps every count equal to the number of occurrences so far |
| FetchDatabaseData.CountValues | fetch_database_data.py:193-200 | the first loop counts each stripped non-empty category, keyed by first appearance |
| FetchDatabaseData.GetCategoriesWithCounts | fetch_database_data.py:191-217 | the seen categories in first-appearance order, then the unseen defaults; ids run from 1; each count is the number of records with that category (0 for an unseen default) |
| FetchDatabaseData.Numbered | fetch_database_data.py:214-217 | the entries are numbered from 1 in key order |
| FetchDatabaseData.CategoryTotals | fetch_database_data.py:191-217 | the counts add up to the number of records with a non-empty category; every default is listed; no name twice |
| FetchDatabaseData.LastSegment | fetch_database_data.py:232 | `split('/')[-1]`: a suffix with no '/', preceded by a '/' when shorter than the id |
| FetchDatabaseData.LastNameDefined | fetch_database_data.py:222-235 | an id gets a name exactly when some record carries it |
| FetchDatabaseData.UradName | fetch_database_data.py:227-235 | the reference definition of one record's name for its authority: the abbreviation, else `Úřad (<last segment>)` for an id with `/`, else `Úřad <id>` |
| FetchDatabaseData.LastName | fetch_database_data.py:222-235 | the reference definition of the surviving name: the one the last record with that id assigns; `LastNameDefined`, `NameAuthorities` and `LastRecordWins` state it |
| FetchDatabaseData.NameAuthorities | fetch_database_data.py:221-235 | the loop keeps each id once, in first-appearance order, named by the last record with it |
| FetchDatabaseData.NameAuthority | fetch_database_data.py:223-235 | one pass of that loop over one more record |
| FetchDatabaseData.GetUniqueUrady | fetch_database_data.py:219-248 | one entry per distinct non-empty id in first-appearance order, named by the last record with it; the three fixed entries when no record has an id |
| FetchDatabaseData.Authorities | fetch_database_data.py:245-248 | each id with its stored name |
| FetchDatabaseData.UradyIds | fetch_database_data.py:219-248 | the listed ids are distinct and are exactly the non-empty ids; the fallback ids are distinct |
| FetchDatabaseData.LastRecordWins | fetch_database_data.py:226-235 | the last record with an id decides its name, even when it has no abbreviation |
| FetchDatabaseData.Lookup | fetch_database_data.py:294 | the first table entry for a key, or none when no entry has it |
| FetchDatabaseData.IsvsFullName | fetch_database_data.py:279-294 | the table's name for a known abbreviation, otherwise `Informační systém <abbreviation>` |
| FetchDatabaseData.DefaultIsvsAgrees | fetch_database_data.py:262-292 | the five default systems are distinct and carry the names the full-name table gives them |
| FetchDatabaseData.LookupAt | fetch_database_data.py:294 | an entry is found when no earlier entry has its key |
| FetchDatabaseData.NameSystems | fetch_database_data.py:254-259 | the loop keeps each abbreviation once, in first-appearance order, with its full name |
| FetchDatabaseData.GetIsvsSystems | fetch_database_data.py:250-277 | the seen abbreviations in first-appearance order, then the unseen defaults; the id and abbreviation are the abbreviation; the name is its full name |
| FetchDatabaseData.Systems | fetch_database_data.py:274-277 | each abbreviation as id and abbreviation, with its full name |
| FetchDatabaseData.IsvsListed | fetch_database_data.py:250-277 | every default and every seen abbreviation is listed, none twice |
| FetchDatabaseData.WordSuggestions | fetch_database_data.py:323-329 | every kept description word, once cleaned of punctuation, is alphabetic and longer than four characters |
| FetchDatabaseData.AllSuggestionsStep | fetch_database_data.py:300-329 | one more record adds exactly its own suggestions |
| FetchDatabaseData.CollectSuggestions | fetch_database_data.py:298-329 | the first loop collects exactly the suggestions of all records |
| FetchDatabaseData.AddRecord | fetch_database_data.py:301-329 | one pass adds exactly the record's suggestions |
| FetchDatabaseData.AddFields | fetch_database_data.py:302-329 | a title, organiser or place longer than three characters, a non-empty category, and the kept description words |
| FetchDatabaseData.AddWords | fetch_database_data.py:325-329 | splitting the description into words and adding the kept ones adds exactly its word suggestions |
| FetchDatabaseData.AddCleanWords | fetch_database_data.py:326-329 | the word loop adds exactly the cleaned words longer than four letters that are alphabetic, for any cleaning of a word |
| FetchDatabaseData.CleanWord | fetch_database_data.py:327 | the reference definition of the cleaning: strip the punctuation set, then whitespace; `CleanWordAt` locates the result inside the word |
| FetchDatabaseData.MentionsStep | fetch_database_data.py:336-347 | one more record adds one mention when its text contains the suggestion |
| FetchDatabaseData.Mentions | fetch_database_data.py:336-347 | the reference definition of a suggestion's count: the number of records whose lower-cased text contains the lower-cased suggestion; `CountMentions` is proved to compute it |
| FetchDatabaseData.CountMentions | fetch_database_data.py:335-347 | the `Counter` holds exactly the suggestions mentioned at least once, each with its number of mentioning records |
| FetchDatabaseData.CountRecord | fetch_database_data.py:345-347 | the inner loop counts one record's mentions |
| FetchDatabaseData.Labels | fetch_database_data.py:349-356 | the labels of the result, in order |
| FetchDatabaseData.SuggestionObjects | fetch_database_data.py:349-356 | each suggestion with its label as id and its count, or 1 when it has none |
| FetchDatabaseData.GenerateSearchSuggestions | fetch_database_data.py:296-356 | at most 100 distinct labels in strictly increasing order, each collected, with id equal to label and count equal to its mentions (at least 1); below 100 every suggestion is there; any suggestion below a listed one is listed |
| FetchDatabaseData.SmallestFirst | fetch_database_data.py:332-355 | taking the first n of a sorted list keeps it sorted and keeps every element below a kept one |
| FetchDatabaseData.WordSuggestionAt | fetch_database_data.py:325-329 | a kept description word occurs in the description |
| FetchDatabaseData.FieldsMention | fetch_database_data.py:302-343 | a suggestion taken from the five fields occurs in them joined by spaces |
| FetchDatabaseData.RecordMentions | fetch_database_data.py:300-346 | a suggestion taken from a record occurs, lower-cased, in that record's lower-cased text |
| FetchDatabaseData.SuggestionSource | fetch_database_data.py:300-329 | each collected suggestion comes from some record |
| FetchDatabaseData.SuggestionMentioned | fetch_database_data.py:335-353 | each collected suggestion is mentioned by at least one record, so the default count of 1 is never used |
| EventsList.Truncate | src/components/EventsList.tsx:352-355 | up to 150 characters are shown unchanged; a longer description shows its first 150 characters and "..." |
| EventsList.TruncateShape | src/components/EventsList.tsx:352-355 | at most 153 characters; unchanged iff at most 150 characters, or exactly 153 ending in "..."; truncating twice is truncating once |
| EventsList.FormatDate | src/components/EventsList.tsx:38-60 | the date text is empty iff the input is empty, and so is the time text |
| EventsList.SmallNumberWidth | src/components/EventsList.tsx:45-51 | numbers below 10 render in one digit, below 100 in two |
| EventsList.TimeTextReadsBack | src/components/EventsList.tsx:50-55 | the time text is `HH:MM` and both fields read back |
| EventsList.DateTextReadsBack | src/components/EventsList.tsx:45-54 | the date text is `<day>. <MM>. <year>`: the day without a leading zero, the month as two digits counting from 1, then the year |
| EventsList.GetCategoryTag | src/components/EventsList.tsx:62-141 | the label is the category; it has an icon iff the category is configured; any other category gets grey #6c757d on #fff with no icon |
| EventsList.GetRiskTag | src/components/EventsList.tsx:143-197 | a tag exactly for levels A, B and C, labelled `Riziko <level>` with an icon |
| EventsList.RiskTagIsCategoryTag | src/components/EventsList.tsx:62-181 | a risk tag looks exactly like the category tag of its label |
| EventsList.GetStatusTag | src/components/EventsList.tsx:199-231 | an executed event is an outage whatever its date; otherwise planned iff its start parses later than now; else none |
| EventsList.StatusTagInTime | src/components/EventsList.tsx:213-228 | a planned event stays planned when looked at earlier; no tag stays no tag later |
| EventsList.OutageLooksLikeCategory | src/components/EventsList.tsx:199-211 | the outage status has the colours of the outage category tag, without its icon |
| EventsList.Title | src/components/EventsList.tsx:303 | the shown title is never empty |
| EventsList.ShownId | src/components/EventsList.tsx:305 | `#` followed by a non-empty id |
| EventsList.FallbackTitle | src/components/EventsList.tsx:303 | an untitled record shows `Událost #<id>`, from which the id reads back; that title never has the placeholder shape |
| EventsList.ShownIf | src/components/EventsList.tsx:307-350 | a field is shown iff it is non-empty, as it is |
| EventsList.RenderCard | src/components/EventsList.tsx:293-374 | a non-empty title (the record's own when set); a description iff set, of at most 153 characters; a category tag iff a category is set, labelled with it; a risk tag iff the level is A, B or C; a system tag iff an abbreviation is set |
| EventsList.RenderList | src/components/EventsList.tsx:19-36 | loading wins; the empty message iff not loading and no events; otherwise one card per event, in order |
| Time.EndOfDay | src/api/eventsApi.ts:152 | `setHours(23, 59, 59, 999)`: the last millisecond of the day |

## Left out

- JSX, styles, SVG icons and layout are presentation. The list's sort selector and its props are not modelled.
- `setTimeout` delays, `Promise.all` in the panel, and the `useEffect` triggers are not modelled. `fetchEvents` is synchronous. Re-running `loadEvents` after a change of filters or sort order is a separate call to `App.AppState.LoadEvents`.
- The error branch of `loadEvents` and its message are not modelled, because the bundled query cannot fail.
- DOM interaction (focus, blur, `inputRef`, the mousedown listener) appears only as its effect on the widget state.
- JavaScript `Date` parsing, time zones, daylight saving time and `toISOString`'s UTC conversion are parameters. Instants are local wall-clock milliseconds with 86 400 000 ms a day. `IsoDate` is the string read in a time zone at UTC, where local midnight is midnight UTC.
- `App.SortEvents`: `Array.prototype.sort` is modelled as an insertion sort on a rank function; `SortStable` proves it stable, as the engines' sort is. The NaN comparator of unparsable starts is not modelled: `StartTime` ties the key to the parsed start only where the start parses, and leaves it free elsewhere.
- `dateUtils.formatDate`, `formatDateTime` and the `toLocale…` calls are left out: they are locale formatting.
- `isToday` compares `toDateString` texts. It takes the day parser as a parameter.
- `toLowerCase` and `str.lower` are modelled on ASCII letters only. Lower-casing of other letters, such as Czech capitals with diacritics, is not modelled.
- `str.isalpha` is modelled for ASCII, Latin-1 and Latin Extended-A/B letters. `str.isspace` is modelled with Python's whitespace table.
- String lengths count code points, not UTF-16 units, so `EventsList.Truncate` for characters outside the BMP is not modelled.
- The placeholder test is written out as a string predicate, not run through a regular expression engine.
- Lookups in `tagConfig` and `riskConfig` for inherited keys such as "toString" or "constructor" are not modelled.
- `EventsList.FormatDate`: the `try/catch` is left out because `new Date` does not throw. The local fields of a date come from a parser parameter. This parameter is not tied to the instant parser used by `GetStatusTag`.
- `console.log` and `print` output is not modelled.
- The database connection, the SQL text, `main` with its JSON writing, and all of `debug_database.py` are I/O and are not modelled.
- `FetchDatabaseData.ConvertValue`: only whole-number values with `__float__` are modelled. A float's `str` here is the digits plus ".0", so exponent notation for large floats and fractional `Decimal` values are left out.
- `FetchDatabaseData.StrftimeShape` assumes a four-digit year. Padding of years below 1000 by `%Y` is platform-dependent and is left out.
- `FetchDatabaseData.GetCategoriesWithCounts`, `GetUniqueUrady`, `GetIsvsSystems` and `GenerateSearchSuggestions` require the text columns to hold strings. On any other value Python raises an error at `.strip()`, and that error path is not modelled.
- `replace('\r\n', ' ').replace('\n', ' ')` before `split()` is subsumed: `split()` already splits at those characters.
- `EventFilters.HandleFilterChange` requires the value to have the field's type, which TypeScript's `keyof Filters` signature enforces.
