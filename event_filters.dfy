/** The filter panel: the `Filters` state it edits, replacing one field at a time,
    the single-select category checkboxes, and the option lists it hands to the two
    autocomplete widgets. */
module EventFilters {
  import opened Wrappers
  import opened Seqs
  import opened Text
  import EventsApi
  import AutocompleteInput
  import MultiSelectAutocomplete

  datatype DateChoice = All | Today | Week | Month | Year | Custom

  /** The panel's state. `ovm` and `isvs` are lists of ids; the date fields hold
      `yyyy-mm-dd` strings from the date inputs, or "". */
  datatype Filters = Filters(
    search: string,
    category: string,
    ovm: seq<string>,
    isvs: seq<string>,
    dateFilter: DateChoice,
    dateFrom: string,
    dateTo: string)

  /** The field names of `Filters`. */
  datatype Key = SearchKey | CategoryKey | OvmKey | IsvsKey | DateFilterKey | DateFromKey | DateToKey

  /** A field value: a string, a list of ids, or the date choice. */
  datatype Value = Str(s: string) | Ids(ids: seq<string>) | Choice(d: DateChoice)

  /** The value has the field's type. */
  predicate Fits(k: Key, v: Value) {
    match k
    case OvmKey => v.Ids?
    case IsvsKey => v.Ids?
    case DateFilterKey => v.Choice?
    case _ => v.Str?
  }

  /** `filters[k]`. */
  function Get(f: Filters, k: Key): (v: Value)
    ensures Fits(k, v)
  {
    match k
    case SearchKey => Str(f.search)
    case CategoryKey => Str(f.category)
    case OvmKey => Ids(f.ovm)
    case IsvsKey => Ids(f.isvs)
    case DateFilterKey => Choice(f.dateFilter)
    case DateFromKey => Str(f.dateFrom)
    case DateToKey => Str(f.dateTo)
  }

  /** Two states are equal when every field is. */
  lemma {:induction false} FieldsDetermine(f: Filters, g: Filters)
    requires forall k :: Get(f, k) == Get(g, k)
    ensures f == g
  {
    assert Get(f, SearchKey) == Get(g, SearchKey);
    assert Get(f, CategoryKey) == Get(g, CategoryKey);
    assert Get(f, OvmKey) == Get(g, OvmKey);
    assert Get(f, IsvsKey) == Get(g, IsvsKey);
    assert Get(f, DateFilterKey) == Get(g, DateFilterKey);
    assert Get(f, DateFromKey) == Get(g, DateFromKey);
    assert Get(f, DateToKey) == Get(g, DateToKey);
  }

  /** `handleFilterChange(key, value)`: `{ ...filters, [key]: value }`. Field `k`
      takes the new value and every other field keeps its old one. */
  function HandleFilterChange(f: Filters, k: Key, v: Value): (g: Filters)
    requires Fits(k, v)
    ensures Get(g, k) == v
    ensures forall k' :: k' != k ==> Get(g, k') == Get(f, k')
  {
    match k
    case SearchKey => f.(search := v.s)
    case CategoryKey => f.(category := v.s)
    case OvmKey => f.(ovm := v.ids)
    case IsvsKey => f.(isvs := v.ids)
    case DateFilterKey => f.(dateFilter := v.d)
    case DateFromKey => f.(dateFrom := v.s)
    case DateToKey => f.(dateTo := v.s)
  }

  /** Writing a field's old value back undoes a change. */
  lemma {:induction false} ChangeThenRestore(f: Filters, k: Key, v: Value)
    requires Fits(k, v)
    ensures HandleFilterChange(HandleFilterChange(f, k, v), k, Get(f, k)) == f
  {
    var g := HandleFilterChange(HandleFilterChange(f, k, v), k, Get(f, k));
    forall k' ensures Get(g, k') == Get(f, k') {
    }
    FieldsDetermine(g, f);
  }

  /** Changes to two different fields commute. */
  lemma {:induction false} ChangesCommute(f: Filters, k1: Key, v1: Value, k2: Key, v2: Value)
    requires k1 != k2 && Fits(k1, v1) && Fits(k2, v2)
    ensures HandleFilterChange(HandleFilterChange(f, k1, v1), k2, v2)
         == HandleFilterChange(HandleFilterChange(f, k2, v2), k1, v1)
  {
    var a := HandleFilterChange(HandleFilterChange(f, k1, v1), k2, v2);
    var b := HandleFilterChange(HandleFilterChange(f, k2, v2), k1, v1);
    forall k ensures Get(a, k) == Get(b, k) {
    }
    FieldsDetermine(a, b);
  }

  /** A date radio button writes only `dateFilter`; the custom bounds are kept. */
  lemma {:induction false} DateRadioKeepsBounds(f: Filters, d: DateChoice)
    ensures HandleFilterChange(f, DateFilterKey, Choice(d)).dateFilter == d
    ensures HandleFilterChange(f, DateFilterKey, Choice(d)).dateFrom == f.dateFrom
    ensures HandleFilterChange(f, DateFilterKey, Choice(d)).dateTo == f.dateTo
  {
    assert Get(HandleFilterChange(f, DateFilterKey, Choice(d)), DateFromKey) == Get(f, DateFromKey);
    assert Get(HandleFilterChange(f, DateFilterKey, Choice(d)), DateToKey) == Get(f, DateToKey);
  }

  /** `handleCategoryToggle`: checking a box selects that category, unchecking any
      box selects none; nothing else changes. */
  function HandleCategoryToggle(f: Filters, categoryName: string, checked: bool): (g: Filters)
    ensures g.category == if checked then categoryName else ""
    ensures forall k :: k != CategoryKey ==> Get(g, k) == Get(f, k)
  {
    HandleFilterChange(f, CategoryKey, Str(if checked then categoryName else ""))
  }

  /** A checkbox is checked exactly when its category is the selected one. */
  predicate IsCategoryChecked(f: Filters, c: EventsApi.Category) {
    f.category == c.nazev
  }

  /** Only categories with events get a checkbox. */
  function VisibleCategories(categories: seq<EventsApi.Category>): (r: seq<EventsApi.Category>)
    ensures IsSubsequence(r, categories)
    ensures forall c :: c in r <==> c in categories && c.count > 0
    ensures forall c :: Count(r, c) == if c.count > 0 then Count(categories, c) else 0
  {
    var visible := (c: EventsApi.Category) => c.count > 0;
    FilterIsSubsequence(categories, visible);
    forall c ensures c in Filter(categories, visible) <==> c in categories && c.count > 0 {
      FilterMember(categories, visible, c);
    }
    forall c ensures Count(Filter(categories, visible), c) == if c.count > 0 then Count(categories, c) else 0 {
      FilterCount(categories, visible, c);
    }
    Filter(categories, visible)
  }

  /** Single selection: every checked box shows the same name. After checking a
      box, exactly the boxes with that name are checked; after unchecking, only a
      box for the empty name could be. */
  lemma {:induction false} AtMostOneCategory(f: Filters, cats: seq<EventsApi.Category>, name: string)
    ensures forall c1, c2 ::
      (c1 in cats && c2 in cats && IsCategoryChecked(f, c1) && IsCategoryChecked(f, c2)) ==> c1.nazev == c2.nazev
    ensures forall c :: IsCategoryChecked(HandleCategoryToggle(f, name, true), c) <==> c.nazev == name
    ensures forall c :: IsCategoryChecked(HandleCategoryToggle(f, name, false), c) <==> c.nazev == ""
  {
  }

  /** `searchOptions`: one autocomplete option per suggestion, with its id and
      label, and a "<count>×" description only when the count exceeds one. */
  function SearchOption(s: EventsApi.SearchSuggestion): (o: AutocompleteInput.AutocompleteOption)
    ensures o.id == s.id && o.labelText == s.labelText
    ensures o.description.Some? <==> s.count > 1
    ensures o.description.Some? ==>
      var d := o.description.value;
      |d| >= 2 && d[|d| - 1] == '×' && AllDigits(d[..|d| - 1]) && DigitsValue(d[..|d| - 1]) == s.count
  {
    if s.count > 1 then
      var digits := NatToString(s.count);
      NatToStringRoundTrip(s.count);
      assert (digits + "×")[..|digits|] == digits;
      AutocompleteInput.AutocompleteOption(s.id, s.labelText, Some(digits + "×"))
    else
      AutocompleteInput.AutocompleteOption(s.id, s.labelText, None)
  }

  function SearchOptions(suggestions: seq<EventsApi.SearchSuggestion>): (r: seq<AutocompleteInput.AutocompleteOption>)
    ensures |r| == |suggestions|
    ensures forall i :: 0 <= i < |r| ==> r[i] == SearchOption(suggestions[i])
  {
    seq(|suggestions|, i requires 0 <= i < |suggestions| => SearchOption(suggestions[i]))
  }

  /** The authority widget's options: id and name of each authority. */
  function OvmOptions(urady: seq<EventsApi.Urad>): (r: seq<MultiSelectAutocomplete.SelectOption>)
    ensures |r| == |urady|
    ensures forall i :: 0 <= i < |r| ==>
      r[i].id == urady[i].id && r[i].labelText == urady[i].nazev && r[i].description.None?
  {
    seq(|urady|, i requires 0 <= i < |urady| => MultiSelectAutocomplete.SelectOption(urady[i].id, urady[i].nazev, None))
  }

  /** The information-system widget's options: the abbreviation is the id, and the
      label is "<abbreviation> - <name>", so it starts with the id. */
  function IsvsOptions(systems: seq<EventsApi.IsvsSystem>): (r: seq<MultiSelectAutocomplete.SelectOption>)
    ensures |r| == |systems|
    ensures forall i :: 0 <= i < |r| ==>
      && r[i].id == systems[i].zkratka
      && r[i].labelText == systems[i].zkratka + " - " + systems[i].nazev
      && StartsWith(r[i].labelText, r[i].id)
      && r[i].description.None?
  {
    seq(|systems|, i requires 0 <= i < |systems| =>
      assert (systems[i].zkratka + " - " + systems[i].nazev)[..|systems[i].zkratka|] == systems[i].zkratka;
      MultiSelectAutocomplete.SelectOption(systems[i].zkratka, systems[i].zkratka + " - " + systems[i].nazev, None))
  }
}
