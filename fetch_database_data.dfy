/** The offline export: database rows become JSON-ready records (with a fallback
    title), and the records are summarised into the category, authority,
    information-system and search-suggestion lists the filter panel loads. */
module FetchDatabaseData {
  import opened Wrappers
  import opened Seqs
  import opened Text
  import opened PyText
  import EventsApi

  // ---------------------------------------------------------------------------
  // Values and dictionaries.

  /** A column value as the database driver returns it: `None`, a `datetime`, a
      number with `__float__` (Python `int` and `Decimal`; only whole numbers are
      modelled), a value with `__int__` but no `__float__`, or any other value,
      given by its `str()`. */
  datatype PyValue =
    | PyNone
    | PyDatetime(year: nat, month: nat, day: nat, hour: nat, minute: nat, second: nat)
    | PyNumber(n: int)
    | PyIntOnly(n: int)
    | PyOther(text: string)

  /** A converted value: a string, a `float` (whole), or an `int`. */
  datatype JsonValue = JStr(s: string) | JFloat(n: int) | JInt(n: int)

  /** A Python dictionary: its keys in insertion order and their values. */
  datatype Dict<V> = Dict(keys: seq<string>, values: map<string, V>)

  ghost predicate DictValid<V>(d: Dict<V>) {
    Distinct(d.keys) && forall k :: k in d.values <==> k in d.keys
  }

  /** `d[k] = v`: a new key goes last, an existing key keeps its place. */
  function Put<V>(d: Dict<V>, k: string, v: V): (r: Dict<V>)
    requires DictValid(d)
    ensures DictValid(r)
    ensures r.values == d.values[k := v]
  {
    if k in d.values then Dict(d.keys, d.values[k := v])
    else
      assert forall i :: 0 <= i < |d.keys| ==> d.keys[i] in d.values;
      Dict(d.keys + [k], d.values[k := v])
  }

  /** `d.get(k)`. */
  function Get<V>(d: Dict<V>, k: string): Option<V> {
    if k in d.values then Some(d.values[k]) else None
  }

  const TITLE := "nazev_udalosti"
  const RECORD_ID := "id_zaznamu"
  const CATEGORY := "kategorie_nazev"
  const OVM_ID := "id_organu_verejne_moci"
  const OVM_ABBREVIATION := "zkratka_uradu"
  const ISVS_ABBREVIATION := "zkratka_informacniho_systemu"
  const ORGANIZER := "organizator"
  const PLACE := "misto_konani"
  const DESCRIPTION := "popis_udalosti"

  // ---------------------------------------------------------------------------
  // Row conversion.

  /** Three fields with a separator between each two. */
  function Joined3(a: string, sep: char, b: string, c: string): string {
    a + [sep] + b + [sep] + c
  }

  /** `value.strftime('%Y-%m-%d %H:%M:%S')`. */
  function Strftime(year: nat, month: nat, day: nat, hour: nat, minute: nat, second: nat): string {
    Joined3(ZeroPad(year, 4), '-', ZeroPad(month, 2), ZeroPad(day, 2)) + " "
      + Joined3(ZeroPad(hour, 2), ':', ZeroPad(minute, 2), ZeroPad(second, 2))
  }

  lemma Joined3Parts(a: string, sep: char, b: string, c: string)
    ensures var r := Joined3(a, sep, b, c);
      && |r| == |a| + |b| + |c| + 2
      && r[..|a|] == a && r[|a|] == sep
      && r[|a| + 1..|a| + 1 + |b|] == b && r[|a| + 1 + |b|] == sep
      && r[|a| + 2 + |b|..] == c
  {
  }

  /** For a four-digit year and two-digit fields the text has 19 characters with the
      separators in place, and each field reads back. */
  lemma {:induction false} StrftimeShape(year: nat, month: nat, day: nat, hour: nat, minute: nat, second: nat)
    requires year < 10000 && month < 100 && day < 100 && hour < 100 && minute < 100 && second < 100
    ensures var t := Strftime(year, month, day, hour, minute, second);
      && |t| == 19
      && t[4] == '-' && t[7] == '-' && t[10] == ' ' && t[13] == ':' && t[16] == ':'
      && AllDigits(t[..4]) && DigitsValue(t[..4]) == year
      && AllDigits(t[5..7]) && DigitsValue(t[5..7]) == month
      && AllDigits(t[8..10]) && DigitsValue(t[8..10]) == day
      && AllDigits(t[11..13]) && DigitsValue(t[11..13]) == hour
      && AllDigits(t[14..16]) && DigitsValue(t[14..16]) == minute
      && AllDigits(t[17..]) && DigitsValue(t[17..]) == second
  {
    assert Pow10(4) == 10000 && Pow10(2) == 100;
    PaddedField(year, 4);
    PaddedField(month, 2);
    PaddedField(day, 2);
    PaddedField(hour, 2);
    PaddedField(minute, 2);
    PaddedField(second, 2);
    StampSlices(ZeroPad(year, 4), ZeroPad(month, 2), ZeroPad(day, 2), ZeroPad(hour, 2), ZeroPad(minute, 2), ZeroPad(second, 2));
  }

  /** Where the six fields of a date-time stamp lie. */
  lemma StampSlices(y: string, mo: string, d: string, h: string, mi: string, s: string)
    requires |y| == 4 && |mo| == 2 && |d| == 2 && |h| == 2 && |mi| == 2 && |s| == 2
    ensures var t := Joined3(y, '-', mo, d) + " " + Joined3(h, ':', mi, s);
      && |t| == 19
      && t[4] == '-' && t[7] == '-' && t[10] == ' ' && t[13] == ':' && t[16] == ':'
      && t[..4] == y && t[5..7] == mo && t[8..10] == d && t[11..13] == h && t[14..16] == mi && t[17..] == s
  {
    var date, time := Joined3(y, '-', mo, d), Joined3(h, ':', mi, s);
    Joined3Parts(y, '-', mo, d);
    Joined3Parts(h, ':', mi, s);
    var t := date + " " + time;
    assert t[..10] == date && t[11..] == time;
    assert t[..4] == date[..4] && t[5..7] == date[5..7] && t[8..10] == date[8..];
    assert t[11..13] == time[..2] && t[14..16] == time[3..5] && t[17..] == time[6..];
  }

  /** The conversion of one column value: a `datetime` becomes its text, `None` the
      empty string, a number with `__float__` a float, one with only `__int__` an
      int, and anything else its `str()`. */
  function ConvertValue(v: PyValue): (j: JsonValue)
    ensures v.PyNone? ==> j == JStr("")
    ensures v.PyNumber? ==> j == JFloat(v.n)
    ensures v.PyIntOnly? ==> j == JInt(v.n)
    ensures v.PyOther? ==> j == JStr(v.text)
    ensures v.PyDatetime? ==> j.JStr? && |j.s| >= 19
  {
    match v
    case PyDatetime(y, mo, d, h, mi, s) =>
      var t := Strftime(y, mo, d, h, mi, s);
      ZeroPadLength(y, 4);
      ZeroPadLength(mo, 2);
      ZeroPadLength(d, 2);
      ZeroPadLength(h, 2);
      ZeroPadLength(mi, 2);
      ZeroPadLength(s, 2);
      JStr(t)
    case PyNone => JStr("")
    case PyNumber(n) => JFloat(n)
    case PyIntOnly(n) => JInt(n)
    case PyOther(t) => JStr(t)
  }

  lemma ZeroPadLength(n: nat, width: nat)
    ensures |ZeroPad(n, width)| >= width
  {
  }

  /** The converted record: the same keys in the same order, each value converted. */
  function Converted(row: Dict<PyValue>): (event: Dict<JsonValue>)
    ensures DictValid(row) ==> DictValid(event)
    ensures event.keys == row.keys
    ensures forall k :: k in event.values <==> k in row.values
    ensures forall k :: k in row.values ==> event.values[k] == ConvertValue(row.values[k])
  {
    Dict(row.keys, map k | k in row.values :: ConvertValue(row.values[k]))
  }

  /** The inner loop of `fetch_events_data`: `event[key] = …` for each item of the row. */
  method ConvertRow(row: Dict<PyValue>) returns (event: Dict<JsonValue>)
    requires DictValid(row)
    ensures DictValid(event)
    ensures event == Converted(row)
  {
    event := Dict([], map[]);
    for i := 0 to |row.keys|
      invariant DictValid(event)
      invariant event.keys == row.keys[..i]
      invariant forall k :: k in event.values ==> k in row.values && event.values[k] == ConvertValue(row.values[k])
    {
      var key := row.keys[i];
      assert key !in row.keys[..i];
      event := Put(event, key, ConvertValue(row.values[key]));
      assert row.keys[..i + 1] == row.keys[..i] + [key];
    }
    assert row.keys[..|row.keys|] == row.keys;
    ConvertedWhole(row, event);
  }

  /** A record with the row's keys whose every value is converted is the converted row. */
  lemma ConvertedWhole(row: Dict<PyValue>, event: Dict<JsonValue>)
    requires DictValid(row) && DictValid(event) && event.keys == row.keys
    requires forall k :: k in event.values ==> k in row.values && event.values[k] == ConvertValue(row.values[k])
    ensures event == Converted(row)
  {
    assert event.values == Converted(row).values;
  }

  /** Python truthiness of `event.get(key)`: present, and not `''` or zero. */
  predicate Truthy(v: Option<JsonValue>) {
    match v
    case None => false
    case Some(JStr(s)) => s != ""
    case Some(JFloat(n)) => n != 0
    case Some(JInt(n)) => n != 0
  }

  /** `str()` of `event.get(key)` inside an f-string: `None`, the string itself, a
      whole float with ".0", or an int. */
  function FormatValue(v: Option<JsonValue>): (s: string)
    ensures Truthy(v) ==> s != ""
  {
    match v
    case None => "None"
    case Some(JStr(s)) => s
    case Some(JFloat(n)) => IntToString(n) + ".0"
    case Some(JInt(n)) => IntToString(n)
  }

  /** The generated title: `Událost <category> #<id>` when a category is set, else
      `Událost #<id>`. */
  function FallbackName(event: Dict<JsonValue>): string {
    if Truthy(Get(event, CATEGORY)) then
      "Událost " + FormatValue(Get(event, CATEGORY)) + " #" + FormatValue(Get(event, RECORD_ID))
    else
      "Událost #" + FormatValue(Get(event, RECORD_ID))
  }

  /** `if not event.get('nazev_udalosti')`: a record without a title gets the
      generated one; every other field, and a record with a title, stay as they are. */
  function WithFallbackTitle(event: Dict<JsonValue>): (r: Dict<JsonValue>)
    requires DictValid(event)
    ensures DictValid(r)
    ensures Truthy(Get(event, TITLE)) ==> r == event
    ensures !Truthy(Get(event, TITLE)) ==> Get(r, TITLE) == Some(JStr(FallbackName(event)))
    ensures forall k :: k != TITLE ==> Get(r, k) == Get(event, k)
    ensures r.keys == if TITLE in event.values then event.keys else event.keys + [TITLE]
  {
    if Truthy(Get(event, TITLE)) then event
    else Put(event, TITLE, JStr(FallbackName(event)))
  }

  /** A record with no title and no category, whose id is a whole float, gets a title
      of the form that the query engine hides (`^Událost #\d+\.0$`). */
  lemma {:induction false} FallbackIsPlaceholder(event: Dict<JsonValue>, n: nat)
    requires DictValid(event)
    requires !Truthy(Get(event, TITLE)) && !Truthy(Get(event, CATEGORY))
    requires Get(event, RECORD_ID) == Some(JFloat(n))
    ensures EventsApi.IsPlaceholderTitle(Get(WithFallbackTitle(event), TITLE).value.s)
  {
    assert FallbackName(event) == EventsApi.PLACEHOLDER_PREFIX + NatToString(n) + ".0";
    EventsApi.PlaceholderShape(n);
  }

  /** With a category the generated title has a space after the `#` position, so it is
      never of the hidden form. */
  lemma {:induction false} CategoryFallbackShown(event: Dict<JsonValue>)
    requires DictValid(event)
    requires !Truthy(Get(event, TITLE)) && Truthy(Get(event, CATEGORY))
    ensures !EventsApi.IsPlaceholderTitle(Get(WithFallbackTitle(event), TITLE).value.s)
  {
    var cat, id := FormatValue(Get(event, CATEGORY)), FormatValue(Get(event, RECORD_ID));
    assert Get(WithFallbackTitle(event), TITLE).value.s == "Událost " + cat + " #" + id;
    CategoryTitleShape(cat, id);
  }

  /** `Událost <category> #<id>` has a space where the hidden form has only digits. */
  lemma CategoryTitleShape(cat: string, id: string)
    requires cat != []
    ensures !EventsApi.IsPlaceholderTitle("Událost " + cat + " #" + id)
  {
    var t := "Událost " + cat + " #" + id;
    var p := |EventsApi.PLACEHOLDER_PREFIX|;
    var gap := 8 + |cat|;
    assert |t| == gap + 2 + |id|;
    assert t[gap] == ' ' && t[gap + 1] == '#';
    if |id| == 0 {
      assert t[|t| - 2..][1] == '#';
    } else {
      assert t[p..|t| - 2][gap - p] == ' ';
    }
  }

  /** `fetch_events_data` after the query: every row converted, then titled. */
  method FetchEventsData(rows: seq<Dict<PyValue>>) returns (events: seq<Dict<JsonValue>>)
    requires forall i :: 0 <= i < |rows| ==> DictValid(rows[i])
    ensures |events| == |rows|
    ensures forall i :: 0 <= i < |rows| ==> events[i] == WithFallbackTitle(Converted(rows[i]))
  {
    ghost var titled := seq(|rows|, j requires 0 <= j < |rows| => WithFallbackTitle(Converted(rows[j])));
    events := [];
    for i := 0 to |rows|
      invariant events == titled[..i]
    {
      var event := ConvertRow(rows[i]);
      event := WithFallbackTitle(event);
      assert event == titled[i];
      SnocPrefix(events, event, titled);
      events := events + [event];
    }
    assert titled[..|rows|] == titled;
  }

  /** Appending the next element of `all` to a prefix of it gives the next prefix. */
  lemma SnocPrefix<T>(xs: seq<T>, x: T, all: seq<T>)
    requires |xs| < |all| && xs == all[..|xs|] && x == all[|xs|]
    ensures xs + [x] == all[..|xs| + 1]
  {
  }

  // ---------------------------------------------------------------------------
  // Reading text fields of the records.

  /** `event.get(key, '')` for a text column. A non-string value would make the
      following `.strip()` raise, so the aggregators require strings (`TextFields`). */
  function GetText(e: Dict<JsonValue>, k: string): string {
    if k in e.values && e.values[k].JStr? then e.values[k].s else ""
  }

  predicate TextFields(events: seq<Dict<JsonValue>>, keys: seq<string>) {
    forall i, k :: 0 <= i < |events| && k in keys && k in events[i].values ==> events[i].values[k].JStr?
  }

  /** The non-empty values of `event.get(key, '').strip()`, in record order. */
  function Stripped(events: seq<Dict<JsonValue>>, key: string): (r: seq<string>)
    ensures forall i :: 0 <= i < |r| ==> r[i] != ""
    ensures |r| <= |events|
  {
    if events == [] then []
    else
      var v := Strip(GetText(events[|events| - 1], key));
      Stripped(events[..|events| - 1], key) + (if v != "" then [v] else [])
  }

  lemma StrippedStep(events: seq<Dict<JsonValue>>, key: string, i: nat, v: string)
    requires i < |events| && v == Strip(GetText(events[i], key))
    ensures v != "" ==> Stripped(events[..i + 1], key) == Stripped(events[..i], key) + [v]
    ensures v == "" ==> Stripped(events[..i + 1], key) == Stripped(events[..i], key)
  {
    assert events[..i + 1][..i] == events[..i];
  }

  /** A dictionary filled from the values of the first `i` records, and then from
      record `i` when its value is not empty, is filled from the first `i + 1`. */
  lemma KeyedStep<V>(events: seq<Dict<JsonValue>>, key: string, i: nat, v: string,
                     seen: seq<string>, keys: seq<string>, values: map<string, V>)
    requires i < |events| && v == Strip(GetText(events[i], key))
    requires seen == if v != "" then Stripped(events[..i], key) + [v] else Stripped(events[..i], key)
    requires KeyedBy(seen, keys, values)
    ensures KeyedBy(Stripped(events[..i + 1], key), keys, values)
  {
    StrippedStep(events, key, i, v);
  }

  /** Storing `f(x)` at `x` keeps every stored value the image of its key. */
  lemma ImageStep(m: map<string, string>, f: string -> string, x: string)
    requires forall k :: k in m ==> m[k] == f(k)
    ensures forall k :: k in m[x := f(x)] ==> m[x := f(x)][k] == f(k)
  {
  }

  /** One step of filling a dictionary keyed by first occurrence. */
  lemma DedupStep(s: seq<string>, x: string)
    ensures Dedup(s + [x]) == if x in s then Dedup(s) else Dedup(s) + [x]
  {
    assert (s + [x])[..|s|] == s;
  }

  function NotInSelector(s: seq<string>): string -> bool {
    (x: string) => x !in s
  }

  /** The keys of a dictionary filled from `seen` and then given each default that
      is not yet present. */
  function WithDefaults(seen: seq<string>, defaults: seq<string>): seq<string> {
    Dedup(seen) + Filter(defaults, NotInSelector(Dedup(seen)))
  }

  /** Every key once, and exactly the seen values and the defaults. */
  lemma {:induction false} WithDefaultsKeys(seen: seq<string>, defaults: seq<string>)
    requires Distinct(defaults)
    ensures Distinct(WithDefaults(seen, defaults))
    ensures forall x :: x in WithDefaults(seen, defaults) <==> x in seen || x in defaults
  {
    var d := Dedup(seen);
    var m := Filter(defaults, NotInSelector(d));
    DedupMembers(seen);
    forall x ensures x in m <==> x in defaults && x !in d {
      FilterMember(defaults, NotInSelector(d), x);
    }
    FilterDistinct(defaults, NotInSelector(d));
    var r := d + m;
    forall i, j | 0 <= i < j < |r| ensures r[i] != r[j] {
      if j >= |d| && i < |d| {
        assert r[j] == m[j - |d|] && r[i] == d[i];
        assert m[j - |d|] in m;
      } else if i >= |d| {
        assert r[i] == m[i - |d|] && r[j] == m[j - |d|];
      }
    }
  }

  lemma {:induction false} FilterDistinct(s: seq<string>, p: string -> bool)
    requires Distinct(s)
    ensures Distinct(Filter(s, p))
    decreases |s|
  {
    if s != [] {
      assert Distinct(s[1..]) by {
        forall i, j | 0 <= i < j < |s[1..]| ensures s[1..][i] != s[1..][j] {
          assert s[1..][i] == s[i + 1] && s[1..][j] == s[j + 1];
        }
      }
      FilterDistinct(s[1..], p);
      var t := Filter(s[1..], p);
      if p(s[0]) {
        forall j | 0 <= j < |s[1..]| ensures s[1..][j] != s[0] {
          assert s[1..][j] == s[j + 1];
        }
        FilterMember(s[1..], p, s[0]);
        assert Filter(s, p) == [s[0]] + t;
      } else {
        assert Filter(s, p) == t;
      }
    }
  }

  /** The loop over the defaults: each one not yet present is added with its value. */
  method AddMissing<V>(keys: seq<string>, values: map<string, V>, defaults: seq<string>, valueOf: string -> V)
    returns (keys': seq<string>, values': map<string, V>)
    requires Distinct(defaults)
    requires forall k :: k in values <==> k in keys
    ensures keys' == keys + Filter(defaults, NotInSelector(keys))
    ensures forall k :: k in values' <==> k in keys'
    ensures forall k :: k in values ==> k in values' && values'[k] == values[k]
    ensures forall k :: k in values' && k !in values ==> values'[k] == valueOf(k)
  {
    keys', values' := keys, values;
    for j := 0 to |defaults|
      invariant keys' == keys + Filter(defaults[..j], NotInSelector(keys))
      invariant forall k :: k in values' <==> k in keys'
      invariant forall k :: k in values ==> k in values' && values'[k] == values[k]
      invariant forall k :: k in values' && k !in values ==> values'[k] == valueOf(k)
    {
      var d := defaults[j];
      MissingStep(defaults, j, keys);
      if d !in values' {
        AppendedMissing(keys, Filter(defaults[..j], NotInSelector(keys)), d, keys');
        keys' := keys' + [d];
        values' := values'[d := valueOf(d)];
      } else {
        assert d in keys;
      }
    }
    assert defaults[..|defaults|] == defaults;
  }

  /** One more default extends the missing ones by itself when it is missing, and
      has not been met before. */
  lemma MissingStep(defaults: seq<string>, j: nat, keys: seq<string>)
    requires Distinct(defaults) && j < |defaults|
    ensures defaults[j] !in keys ==>
      Filter(defaults[..j + 1], NotInSelector(keys)) == Filter(defaults[..j], NotInSelector(keys)) + [defaults[j]]
    ensures defaults[j] in keys ==>
      Filter(defaults[..j + 1], NotInSelector(keys)) == Filter(defaults[..j], NotInSelector(keys))
    ensures defaults[j] !in defaults[..j]
  {
    var d := defaults[j];
    FilterAppend(defaults[..j], [d], NotInSelector(keys));
    assert defaults[..j + 1] == defaults[..j] + [d];
    assert Filter([d], NotInSelector(keys)) == if d !in keys then [d] else [];
  }

  /** Appending a missing key to the keys so far keeps them the original keys
      followed by the missing ones. */
  lemma AppendedMissing(keys: seq<string>, missing: seq<string>, d: string, keys': seq<string>)
    requires keys' == keys + missing
    ensures keys' + [d] == keys + (missing + [d])
    ensures forall k :: k in keys' + [d] <==> k in keys' || k == d
  {
  }

  // ---------------------------------------------------------------------------
  // Categories.

  const DEFAULT_CATEGORIES: seq<string> := ["Akce eGovernmentu", "veřejná událost", "legislativní událost", "událost ISVS"]

  function ZeroCount(): string -> nat {
    (k: string) => 0
  }

  /** `keys` lists `seen` without repeats, in order of first appearance, and
      `values` has exactly those keys. */
  ghost predicate KeyedBy<V>(seen: seq<string>, keys: seq<string>, values: map<string, V>) {
    keys == Dedup(seen) && forall k :: k in values <==> k in keys
  }

  /** `values[k] = v` on a dictionary filled from `seen`. */
  method Assign<V>(ghost seen: seq<string>, keys: seq<string>, values: map<string, V>, k: string, v: V)
    returns (keys': seq<string>, values': map<string, V>)
    requires KeyedBy(seen, keys, values)
    ensures KeyedBy(seen + [k], keys', values')
    ensures values' == values[k := v]
  {
    DedupStep(seen, k);
    DedupMembers(seen);
    keys' := if k in values then keys else keys + [k];
    values' := values[k := v];
  }

  /** The counts of `seen`, keyed by first appearance. */
  ghost predicate Tallied(seen: seq<string>, keys: seq<string>, counts: map<string, nat>) {
    KeyedBy(seen, keys, counts) && forall k :: k in counts ==> counts[k] == Count(seen, k)
  }

  /** `counts[value] = counts.get(value, 0) + 1`. */
  method Tally(ghost seen: seq<string>, keys: seq<string>, counts: map<string, nat>, value: string)
    returns (keys': seq<string>, counts': map<string, nat>)
    requires Tallied(seen, keys, counts)
    ensures Tallied(seen + [value], keys', counts')
  {
    CountStep(seen, value);
    var n := if value in counts then counts[value] else 0;
    keys', counts' := Assign(seen, keys, counts, value, n + 1);
    forall k | k in counts' ensures counts'[k] == Count(seen + [value], k) {
      if k != value {
        assert counts'[k] == counts[k];
      }
    }
  }

  /** The first loop of `get_categories_with_counts`: each stripped non-empty value
      of `key` counted, the keys in order of first appearance. */
  method CountValues(events: seq<Dict<JsonValue>>, key: string) returns (keys: seq<string>, counts: map<string, nat>)
    ensures Tallied(Stripped(events, key), keys, counts)
  {
    keys, counts := [], map[];
    for i := 0 to |events|
      invariant Tallied(Stripped(events[..i], key), keys, counts)
    {
      var value := Strip(GetText(events[i], key));
      StrippedStep(events, key, i, value);
      if value != "" {
        keys, counts := Tally(Stripped(events[..i], key), keys, counts, value);
      }
    }
    assert events[..|events|] == events;
  }

  /** Counting and first occurrences after one more value. */
  lemma CountStep(s: seq<string>, x: string)
    ensures forall k :: Count(s + [x], k) == Count(s, k) + (if k == x then 1 else 0)
  {
    forall k ensures Count(s + [x], k) == Count(s, k) + (if k == x then 1 else 0) {
      CountAppend(s, [x], k);
      assert Count([x], k) == (if x == k then 1 else 0) + Count([], k);
    }
  }

  lemma DedupMembers(s: seq<string>)
    ensures forall x :: x in s <==> x in Dedup(s)
  {
    forall x ensures x in s <==> x in Dedup(s) {
      if x in s {
        var i :| 0 <= i < |s| && s[i] == x;
      }
      if x in Dedup(s) {
        var i :| 0 <= i < |Dedup(s)| && Dedup(s)[i] == x;
      }
    }
  }

  lemma DefaultCategoriesDistinct()
    ensures Distinct(DEFAULT_CATEGORIES)
  {
    var d := DEFAULT_CATEGORIES;
    assert d[0][0] == 'A' && d[1][0] == 'v' && d[2][0] == 'l' && d[3][0] == 'u';
  }

  /** `get_categories_with_counts`: one entry per category, first the stripped
      non-empty category names in order of first appearance with their number of
      records, then each default category not seen, with count 0; ids run from 1. */
  method GetCategoriesWithCounts(events: seq<Dict<JsonValue>>) returns (r: seq<EventsApi.Category>)
    requires TextFields(events, [CATEGORY])
    ensures var seen := Stripped(events, CATEGORY);
      var names := WithDefaults(seen, DEFAULT_CATEGORIES);
      && |r| == |names|
      && forall i :: 0 <= i < |r| ==> r[i] == EventsApi.Category(i + 1, names[i], Count(seen, names[i]))
  {
    var keys, counts := CountValues(events, CATEGORY);
    ghost var seen := Stripped(events, CATEGORY);
    DefaultCategoriesDistinct();
    var allKeys, allCounts := AddMissing(keys, counts, DEFAULT_CATEGORIES, ZeroCount());
    ZeroForUnseen(seen, keys, counts, allKeys, allCounts);
    assert allKeys == WithDefaults(seen, DEFAULT_CATEGORIES);
    r := Numbered(allKeys, allCounts);
    forall i | 0 <= i < |r| ensures r[i] == EventsApi.Category(i + 1, allKeys[i], Count(seen, allKeys[i])) {
      assert allKeys[i] in allCounts;
    }
  }

  /** The result list: categories numbered from 1 in key order. */
  function Numbered(keys: seq<string>, counts: map<string, nat>): (r: seq<EventsApi.Category>)
    requires forall k :: k in keys ==> k in counts
    ensures |r| == |keys|
    ensures forall i :: 0 <= i < |r| ==> r[i] == EventsApi.Category(i + 1, keys[i], counts[keys[i]])
  {
    seq(|keys|, i requires 0 <= i < |keys| => EventsApi.Category(i + 1, keys[i], counts[keys[i]]))
  }

  /** A default added with count 0 was not seen, so 0 is its count. */
  lemma ZeroForUnseen(seen: seq<string>, keys: seq<string>, counts: map<string, nat>, allKeys: seq<string>, allCounts: map<string, nat>)
    requires Tallied(seen, keys, counts)
    requires forall k :: k in allCounts <==> k in allKeys
    requires forall k :: k in counts ==> k in allCounts && allCounts[k] == counts[k]
    requires forall k :: k in allCounts && k !in counts ==> allCounts[k] == 0
    ensures forall k :: k in allCounts ==> allCounts[k] == Count(seen, k)
  {
    DedupMembers(seen);
  }

  /** The counts add up to the number of records with a non-empty category, every
      default category is listed, and no name is listed twice. */
  lemma CategoryTotals(events: seq<Dict<JsonValue>>)
    ensures var seen := Stripped(events, CATEGORY);
      var names := WithDefaults(seen, DEFAULT_CATEGORIES);
      && SumCounts(names, seen) == |seen|
      && (forall c :: c in DEFAULT_CATEGORIES ==> c in names)
      && Distinct(names)
  {
    var seen := Stripped(events, CATEGORY);
    DefaultCategoriesDistinct();
    WithDefaultsKeys(seen, DEFAULT_CATEGORIES);
    WithDefaultsTotal(seen, DEFAULT_CATEGORIES);
  }

  /** The defaults add nothing to the total count. */
  lemma {:induction false} WithDefaultsTotal(seen: seq<string>, defaults: seq<string>)
    ensures SumCounts(WithDefaults(seen, defaults), seen) == |seen|
  {
    var d := Dedup(seen);
    var missing := Filter(defaults, NotInSelector(d));
    SumCountsDedup(seen);
    SumCountsConcat(d, missing, seen);
    DedupMembers(seen);
    forall x | x in missing ensures x !in seen {
      FilterMember(defaults, NotInSelector(d), x);
    }
    SumCountsAbsent(missing, seen);
  }

  lemma {:induction false} SumCountsConcat(a: seq<string>, b: seq<string>, s: seq<string>)
    ensures SumCounts(a + b, s) == SumCounts(a, s) + SumCounts(b, s)
  {
    if a != [] {
      assert (a + b)[1..] == a[1..] + b;
      SumCountsConcat(a[1..], b, s);
    } else {
      assert a + b == b;
    }
  }

  lemma {:induction false} SumCountsAbsent(keys: seq<string>, s: seq<string>)
    requires forall x :: x in keys ==> x !in s
    ensures SumCounts(keys, s) == 0
  {
    if keys != [] {
      assert keys[0] in keys;
      assert forall x :: x in keys[1..] ==> x in keys;
      SumCountsAbsent(keys[1..], s);
    }
  }

  // ---------------------------------------------------------------------------
  // Authorities.

  /** `ovm_id.split('/')[-1]`: what follows the last '/', or all of `s` without one. */
  function LastSegment(s: string): (r: string)
    ensures |r| <= |s| && r == s[|s| - |r|..]
    ensures '/' !in r
    ensures |r| < |s| ==> s[|s| - |r| - 1] == '/'
  {
    if s == [] || s[|s| - 1] == '/' then []
    else
      var r := LastSegment(s[..|s| - 1]);
      assert s[..|s| - 1][|s| - 1 - |r|..] == s[|s| - 1 - |r|..|s| - 1];
      assert s[|s| - 1 - |r|..] == s[|s| - 1 - |r|..|s| - 1] + [s[|s| - 1]];
      r + [s[|s| - 1]]
  }

  /** The name stored for an authority id: the abbreviation when there is one, else
      `Úřad (<last segment>)` for an id with '/', else `Úřad <id>`. */
  function UradName(ovmId: string, abbreviation: string): string {
    if abbreviation != "" then abbreviation
    else if '/' in ovmId then "Úřad (" + LastSegment(ovmId) + ")"
    else "Úřad " + ovmId
  }

  /** The name the last record with that authority id assigns. */
  function LastName(events: seq<Dict<JsonValue>>, ovmId: string): Option<string> {
    if events == [] then None
    else
      var e := events[|events| - 1];
      var id := Strip(GetText(e, OVM_ID));
      if id != "" && id == ovmId then Some(UradName(id, Strip(GetText(e, OVM_ABBREVIATION))))
      else LastName(events[..|events| - 1], ovmId)
  }

  /** An id has a name exactly when some record carries it. */
  lemma {:induction false} LastNameDefined(events: seq<Dict<JsonValue>>, ovmId: string)
    ensures LastName(events, ovmId).Some? <==> ovmId != "" && ovmId in Stripped(events, OVM_ID)
  {
    if events != [] {
      var init := events[..|events| - 1];
      var id := Strip(GetText(events[|events| - 1], OVM_ID));
      assert Stripped(events, OVM_ID) == Stripped(init, OVM_ID) + (if id != "" then [id] else []);
      SnocMember(Stripped(events, OVM_ID), Stripped(init, OVM_ID), id, ovmId);
      LastNameDefined(init, ovmId);
    }
  }

  /** Membership after appending a value when it is not empty. */
  lemma SnocMember(s: seq<string>, t: seq<string>, v: string, x: string)
    requires s == t + (if v != "" then [v] else [])
    ensures x in s <==> x in t || (v != "" && x == v)
  {
  }

  lemma LastNameStep(events: seq<Dict<JsonValue>>, ovmId: string, i: nat)
    requires i < |events|
    ensures var id := Strip(GetText(events[i], OVM_ID));
      LastName(events[..i + 1], ovmId) ==
        if id != "" && id == ovmId then Some(UradName(id, Strip(GetText(events[i], OVM_ABBREVIATION))))
        else LastName(events[..i], ovmId)
  {
    assert events[..i + 1][..i] == events[..i];
  }

  const FALLBACK_URADY: seq<EventsApi.Urad> := [
    EventsApi.Urad("orgán-veřejné-moci/17651921", "Digitální a informační agentura"),
    EventsApi.Urad("orgán-veřejné-moci/66003369", "Ministerstvo vnitra"),
    EventsApi.Urad("orgán-veřejné-moci/00025593", "Úřad vlády ČR")]

  /** `get_unique_urady`: one entry per distinct non-empty id, in order of first
      appearance, named by the last record with that id; the three fixed entries
      when no record has an id. */
  method GetUniqueUrady(events: seq<Dict<JsonValue>>) returns (r: seq<EventsApi.Urad>)
    requires TextFields(events, [OVM_ID, OVM_ABBREVIATION])
    ensures Stripped(events, OVM_ID) == [] ==> r == FALLBACK_URADY
    ensures Stripped(events, OVM_ID) != [] ==>
      var ids := Dedup(Stripped(events, OVM_ID));
      && |r| == |ids|
      && forall i :: 0 <= i < |r| ==> r[i].id == ids[i] && LastName(events, ids[i]) == Some(r[i].nazev)
  {
    var keys, names := NameAuthorities(events);
    NamedKeys(events, keys, names);
    if keys == [] {
      r := FALLBACK_URADY;
    } else {
      r := Authorities(keys, names);
    }
  }

  /** The ids the loop keeps are the distinct ids, each stored with its last name;
      there are none only when no record has an id. */
  lemma NamedKeys(events: seq<Dict<JsonValue>>, keys: seq<string>, names: map<string, string>)
    requires Named(events, keys, names)
    ensures keys == Dedup(Stripped(events, OVM_ID))
    ensures keys == [] <==> Stripped(events, OVM_ID) == []
    ensures forall k :: k in keys ==> k in names && LastName(events, k) == Some(names[k])
  {
    DedupMembers(Stripped(events, OVM_ID));
    if Stripped(events, OVM_ID) != [] {
      assert Stripped(events, OVM_ID)[0] in keys;
    }
  }

  /** The result list: each id with its stored name. */
  function Authorities(keys: seq<string>, names: map<string, string>): (r: seq<EventsApi.Urad>)
    requires forall k :: k in keys ==> k in names
    ensures |r| == |keys|
    ensures forall i :: 0 <= i < |r| ==> r[i] == EventsApi.Urad(keys[i], names[keys[i]])
  {
    seq(|keys|, i requires 0 <= i < |keys| => EventsApi.Urad(keys[i], names[keys[i]]))
  }

  /** What the loop of `get_unique_urady` keeps: each id with the name its last
      record gives it. */
  ghost predicate Named(events: seq<Dict<JsonValue>>, keys: seq<string>, names: map<string, string>) {
    KeyedBy(Stripped(events, OVM_ID), keys, names) && forall k :: k in names ==> LastName(events, k) == Some(names[k])
  }

  /** The loop of `get_unique_urady`: `urady[ovm_id] = zkratka`, or the `Úřad (…)` /
      `Úřad …` name when the abbreviation is empty, for each record with an id, so the
      last such record names it. */
  method NameAuthorities(events: seq<Dict<JsonValue>>) returns (keys: seq<string>, names: map<string, string>)
    ensures Named(events, keys, names)
  {
    keys, names := [], map[];
    for i := 0 to |events|
      invariant Named(events[..i], keys, names)
    {
      keys, names := NameAuthority(events, i, keys, names);
    }
    assert events[..|events|] == events;
  }

  /** One pass of that loop. */
  method NameAuthority(events: seq<Dict<JsonValue>>, i: nat, keys: seq<string>, names: map<string, string>)
    returns (keys': seq<string>, names': map<string, string>)
    requires i < |events| && Named(events[..i], keys, names)
    ensures Named(events[..i + 1], keys', names')
  {
    var ovmId := Strip(GetText(events[i], OVM_ID));
    var zkratka := Strip(GetText(events[i], OVM_ABBREVIATION));
    StrippedStep(events, OVM_ID, i, ovmId);
    if ovmId != "" {
      keys', names' := Assign(Stripped(events[..i], OVM_ID), keys, names, ovmId, UradName(ovmId, zkratka));
    } else {
      keys', names' := keys, names;
    }
    NamedStep(events, i, keys, names, keys', names');
  }

  lemma NamedStep(events: seq<Dict<JsonValue>>, i: nat, keys: seq<string>, names: map<string, string>,
                  keys': seq<string>, names': map<string, string>)
    requires i < |events| && Named(events[..i], keys, names)
    requires KeyedBy(Stripped(events[..i + 1], OVM_ID), keys', names')
    requires var ovmId := Strip(GetText(events[i], OVM_ID));
      names' == if ovmId != "" then names[ovmId := UradName(ovmId, Strip(GetText(events[i], OVM_ABBREVIATION)))] else names
    ensures Named(events[..i + 1], keys', names')
  {
    var ovmId := Strip(GetText(events[i], OVM_ID));
    forall k | k in names' ensures LastName(events[..i + 1], k) == Some(names'[k]) {
      LastNameStep(events, k, i);
      if k != ovmId {
        assert names'[k] == names[k];
      }
    }
  }

  /** The authority ids listed are distinct, and every non-empty id is listed. */
  lemma {:induction false} UradyIds(events: seq<Dict<JsonValue>>)
    ensures Distinct(Dedup(Stripped(events, OVM_ID)))
    ensures forall id :: id in Stripped(events, OVM_ID) <==> id in Dedup(Stripped(events, OVM_ID))
    ensures Distinct([FALLBACK_URADY[0].id, FALLBACK_URADY[1].id, FALLBACK_URADY[2].id])
  {
    DedupMembers(Stripped(events, OVM_ID));
    assert FALLBACK_URADY[0].id[19] == '1' && FALLBACK_URADY[1].id[19] == '6' && FALLBACK_URADY[2].id[19] == '0';
  }

  /** The last record with an id decides its name, whatever earlier records said: a
      last record without an abbreviation replaces an earlier abbreviation by the
      generated `Úřad …` name. */
  lemma LastRecordWins(events: seq<Dict<JsonValue>>, e: Dict<JsonValue>)
    requires Strip(GetText(e, OVM_ID)) != ""
    ensures var id := Strip(GetText(e, OVM_ID));
      LastName(events + [e], id) == Some(UradName(id, Strip(GetText(e, OVM_ABBREVIATION))))
  {
    var all := events + [e];
    assert all[|all| - 1] == e;
  }

  // ---------------------------------------------------------------------------
  // Information systems.

  /** `get_isvs_full_name`'s table. */
  const ISVS_NAMES: seq<(string, string)> := [
    ("ISDS", "Informační systém datových schránek"),
    ("ISSS", "Informační systém statistiky a reportingu"),
    ("Portál občana", "Portál občana České republiky"),
    ("eDoklady", "Elektronické doklady"),
    ("e-Legislativa", "Systém elektronické legislativy"),
    ("CzP", "Czech POINT"),
    ("eMatrika", "Elektronická matrika"),
    ("eSSL", "Elektronický systém správy dokumentů"),
    ("RÚIAN", "Registr územní identifikace, adres a nemovitostí"),
    ("ROB", "Registr osob a bytů")]

  /** The first entry of `table` for `k`. */
  function Lookup(table: seq<(string, string)>, k: string): (r: Option<string>)
    ensures r.None? <==> forall i :: 0 <= i < |table| ==> table[i].0 != k
    ensures r.Some? ==> exists i :: 0 <= i < |table| && table[i] == (k, r.value)
  {
    if table == [] then None
    else if table[0].0 == k then Some(table[0].1)
    else
      var r := Lookup(table[1..], k);
      assert forall i :: 1 <= i < |table| ==> table[i] == table[1..][i - 1];
      if r.Some? then
        var j :| 0 <= j < |table[1..]| && table[1..][j] == (k, r.value);
        assert table[j + 1] == (k, r.value);
        r
      else r
  }

  /** `get_isvs_full_name`: the table's name, or `Informační systém <abbreviation>`. */
  function IsvsFullName(zkratka: string): (name: string)
    ensures (forall i :: 0 <= i < |ISVS_NAMES| ==> ISVS_NAMES[i].0 != zkratka) ==> name == "Informační systém " + zkratka
    ensures Lookup(ISVS_NAMES, zkratka).Some? ==> name == Lookup(ISVS_NAMES, zkratka).value
  {
    match Lookup(ISVS_NAMES, zkratka)
    case Some(name) => name
    case None => "Informační systém " + zkratka
  }

  /** `default_isvs`, in its order. */
  const DEFAULT_ISVS: seq<(string, string)> := [
    ("ISDS", "Informační systém datových schránek"),
    ("ISSS", "Informační systém statistiky a reportingu"),
    ("Portál občana", "Portál občana České republiky"),
    ("eDoklady", "Elektronické doklady"),
    ("e-Legislativa", "Systém elektronické legislativy")]

  function DefaultIsvsKeys(): seq<string> {
    [DEFAULT_ISVS[0].0, DEFAULT_ISVS[1].0, DEFAULT_ISVS[2].0, DEFAULT_ISVS[3].0, DEFAULT_ISVS[4].0]
  }

  function DefaultIsvsName(zkratka: string): string {
    if zkratka == DEFAULT_ISVS[0].0 then DEFAULT_ISVS[0].1
    else if zkratka == DEFAULT_ISVS[1].0 then DEFAULT_ISVS[1].1
    else if zkratka == DEFAULT_ISVS[2].0 then DEFAULT_ISVS[2].1
    else if zkratka == DEFAULT_ISVS[3].0 then DEFAULT_ISVS[3].1
    else DEFAULT_ISVS[4].1
  }

  function DefaultIsvsNameOf(): string -> string {
    (z: string) => DefaultIsvsName(z)
  }

  /** The default systems carry the same names as the full-name table, and their
      abbreviations are distinct. */
  lemma DefaultIsvsAgrees()
    ensures Distinct(DefaultIsvsKeys())
    ensures forall z :: z in DefaultIsvsKeys() ==> DefaultIsvsName(z) == IsvsFullName(z)
  {
    DefaultIsvsDistinct();
    var keys := DefaultIsvsKeys();
    forall i | 0 <= i < |keys| ensures DefaultIsvsNameOf()(keys[i]) == IsvsFullName(keys[i]) {
      assert keys[i] == DEFAULT_ISVS[i].0;
      DefaultIsvsAt(i);
    }
    PointwiseAgree(keys, DefaultIsvsNameOf(), IsvsFullName);
  }

  /** Two functions that agree on each entry agree on every member. */
  lemma PointwiseAgree(keys: seq<string>, f: string -> string, g: string -> string)
    requires forall i :: 0 <= i < |keys| ==> f(keys[i]) == g(keys[i])
    ensures forall z :: z in keys ==> f(z) == g(z)
  {
  }

  lemma DefaultIsvsDistinct()
    ensures Distinct(DefaultIsvsKeys())
  {
    var d := DEFAULT_ISVS;
    assert |d[0].0| == 4 && |d[1].0| == 4 && |d[2].0| == 13 && |d[3].0| == 8 && |d[4].0| == 13;
    assert d[0].0[2] != d[1].0[2] && d[2].0[0] != d[4].0[0];
  }

  lemma DefaultIsvsAt(i: nat)
    requires i < 5
    ensures DefaultIsvsName(DEFAULT_ISVS[i].0) == IsvsFullName(DEFAULT_ISVS[i].0)
  {
    DefaultsFromTable();
    DefaultNameAt(i);
    TableNameAt(i);
  }

  /** The defaults are the first five entries of the full-name table. */
  lemma DefaultsFromTable()
    ensures forall i :: 0 <= i < 5 ==> DEFAULT_ISVS[i] == ISVS_NAMES[i]
  {
  }

  /** The name the defaults give their `i`-th abbreviation. */
  lemma DefaultNameAt(i: nat)
    requires i < 5
    ensures DefaultIsvsName(DEFAULT_ISVS[i].0) == DEFAULT_ISVS[i].1
  {
    DefaultIsvsDistinct();
    var k := DefaultIsvsKeys();
    assert k[i] == DEFAULT_ISVS[i].0;
  }

  /** The full name the table gives its `i`-th abbreviation, for the first five. */
  lemma TableNameAt(i: nat)
    requires i < 5
    ensures IsvsFullName(ISVS_NAMES[i].0) == ISVS_NAMES[i].1
  {
    FirstNamesDistinct();
    LookupAt(ISVS_NAMES, i);
  }

  /** The first five abbreviations of the name table differ from each other. */
  lemma FirstNamesDistinct()
    ensures forall i, j :: 0 <= j < i < 5 ==> ISVS_NAMES[j].0 != ISVS_NAMES[i].0
  {
    var a, b, c, d, e := ISVS_NAMES[0].0, ISVS_NAMES[1].0, ISVS_NAMES[2].0, ISVS_NAMES[3].0, ISVS_NAMES[4].0;
    assert |a| == 4 && |b| == 4 && |c| == 13 && |d| == 8 && |e| == 13;
    assert a[2] != b[2] && c[0] != e[0];
  }

  /** The entry at `i` is found when no earlier entry has its key. */
  lemma {:induction false} LookupAt(table: seq<(string, string)>, i: nat)
    requires i < |table|
    requires forall j :: 0 <= j < i ==> table[j].0 != table[i].0
    ensures Lookup(table, table[i].0) == Some(table[i].1)
    decreases i
  {
    if i > 0 {
      assert table[i] == table[1..][i - 1];
      LookupAt(table[1..], i - 1);
    }
  }

  /** `get_isvs_systems`: one entry per distinct abbreviation in order of first
      appearance, then each default not seen; the id is the abbreviation and the name
      is its full name. */
  method GetIsvsSystems(events: seq<Dict<JsonValue>>) returns (r: seq<EventsApi.IsvsSystem>)
    requires TextFields(events, [ISVS_ABBREVIATION])
    ensures var names := WithDefaults(Stripped(events, ISVS_ABBREVIATION), DefaultIsvsKeys());
      && |r| == |names|
      && forall i :: 0 <= i < |r| ==> r[i] == EventsApi.IsvsSystem(names[i], names[i], IsvsFullName(names[i]))
  {
    var keys, fullNames := NameSystems(events);
    DefaultIsvsAgrees();
    var allKeys, allNames := AddMissing(keys, fullNames, DefaultIsvsKeys(), DefaultIsvsNameOf());
    forall k | k in allNames ensures allNames[k] == IsvsFullName(k) {
      if k !in fullNames {
        assert k in DefaultIsvsKeys() by {
          FilterMember(DefaultIsvsKeys(), NotInSelector(keys), k);
        }
      }
    }
    assert allKeys == WithDefaults(Stripped(events, ISVS_ABBREVIATION), DefaultIsvsKeys());
    r := Systems(allKeys);
  }

  /** The loop of `get_isvs_systems`: `isvs_data[zkratka] = get_isvs_full_name(zkratka)`. */
  method NameSystems(events: seq<Dict<JsonValue>>) returns (keys: seq<string>, fullNames: map<string, string>)
    ensures KeyedBy(Stripped(events, ISVS_ABBREVIATION), keys, fullNames)
    ensures forall k :: k in fullNames ==> fullNames[k] == IsvsFullName(k)
  {
    keys, fullNames := [], map[];
    for i := 0 to |events|
      invariant KeyedBy(Stripped(events[..i], ISVS_ABBREVIATION), keys, fullNames)
      invariant forall k :: k in fullNames ==> fullNames[k] == IsvsFullName(k)
    {
      var zkratka := Strip(GetText(events[i], ISVS_ABBREVIATION));
      if zkratka != "" {
        ghost var before := fullNames;
        keys, fullNames := Assign(Stripped(events[..i], ISVS_ABBREVIATION), keys, fullNames, zkratka, IsvsFullName(zkratka));
        ImageStep(before, IsvsFullName, zkratka);
        KeyedStep(events, ISVS_ABBREVIATION, i, zkratka, Stripped(events[..i], ISVS_ABBREVIATION) + [zkratka], keys, fullNames);
      } else {
        KeyedStep(events, ISVS_ABBREVIATION, i, zkratka, Stripped(events[..i], ISVS_ABBREVIATION), keys, fullNames);
      }
    }
    assert events[..|events|] == events;
  }

  /** The result list: each abbreviation as id and abbreviation, with its full name. */
  function Systems(keys: seq<string>): (r: seq<EventsApi.IsvsSystem>)
    ensures |r| == |keys|
    ensures forall i :: 0 <= i < |r| ==> r[i] == EventsApi.IsvsSystem(keys[i], keys[i], IsvsFullName(keys[i]))
  {
    seq(|keys|, i requires 0 <= i < |keys| => EventsApi.IsvsSystem(keys[i], keys[i], IsvsFullName(keys[i])))
  }

  /** Every default system is listed, no abbreviation twice. */
  lemma {:induction false} IsvsListed(events: seq<Dict<JsonValue>>)
    ensures var names := WithDefaults(Stripped(events, ISVS_ABBREVIATION), DefaultIsvsKeys());
      && Distinct(names)
      && (forall z :: z in DefaultIsvsKeys() ==> z in names)
      && (forall z :: z in Stripped(events, ISVS_ABBREVIATION) ==> z in names)
  {
    DefaultIsvsAgrees();
    WithDefaultsKeys(Stripped(events, ISVS_ABBREVIATION), DefaultIsvsKeys());
  }

  // ---------------------------------------------------------------------------
  // Search suggestions.

  /** The characters `word.strip('.,!?:;()[]{}"-')` removes. */
  predicate IsPunctuation(c: char) {
    c in ".,!?:;()[]{}\"-"
  }

  function PunctuationSelector(): char -> bool {
    (c: char) => IsPunctuation(c)
  }

  /** `word.strip('.,!?:;()[]{}"-').strip()`. */
  function CleanWord(w: string): string {
    Strip(StripBy(w, PunctuationSelector()))
  }

  /** A description word is kept when, cleaned, it is longer than four letters. */
  predicate KeptWord(c: string) {
    |c| > 4 && IsAlpha(c)
  }

  /** The cleaned description words that are kept. */
  function WordSuggestions(popis: string): (r: set<string>)
    ensures forall c :: c in r ==> KeptWord(c)
  {
    set w | w in Words(popis) && KeptWord(CleanWord(w)) :: CleanWord(w)
  }

  /** A title, organiser or place is kept when, stripped, it is longer than three
      characters. */
  function LongField(v: string): set<string> {
    if |v| > 3 then {v} else {}
  }

  /** What one record adds: its title, organiser and place when long enough, its
      category when non-empty, and the kept description words (all stripped). */
  function RecordSuggestions(e: Dict<JsonValue>): set<string> {
    FieldSuggestions(Strip(GetText(e, TITLE)), Strip(GetText(e, ORGANIZER)), Strip(GetText(e, PLACE)),
      Strip(GetText(e, CATEGORY)), Strip(GetText(e, DESCRIPTION)))
  }

  function FieldSuggestions(nazev: string, organizator: string, misto: string, kategorie: string, popis: string): set<string> {
    LongField(nazev) + LongField(organizator) + LongField(misto)
      + (if kategorie != "" then {kategorie} else {})
      + WordSuggestions(popis)
  }

  /** The suggestion set after the first loop. */
  function AllSuggestions(events: seq<Dict<JsonValue>>): set<string> {
    if events == [] then {} else AllSuggestions(events[..|events| - 1]) + RecordSuggestions(events[|events| - 1])
  }

  lemma AllSuggestionsStep(events: seq<Dict<JsonValue>>, i: nat)
    requires i < |events|
    ensures AllSuggestions(events[..i + 1]) == AllSuggestions(events[..i]) + RecordSuggestions(events[i])
  {
    assert events[..i + 1][..i] == events[..i];
  }

  /** The first loop: collect the suggestions. */
  method CollectSuggestions(events: seq<Dict<JsonValue>>) returns (suggestions: set<string>)
    ensures suggestions == AllSuggestions(events)
  {
    suggestions := {};
    for i := 0 to |events|
      invariant suggestions == AllSuggestions(events[..i])
    {
      AllSuggestionsStep(events, i);
      suggestions := AddRecord(events[i], suggestions);
    }
    assert events[..|events| ] == events;
  }

  /** One pass of the first loop. */
  method AddRecord(e: Dict<JsonValue>, suggestions: set<string>) returns (suggestions': set<string>)
    ensures suggestions' == suggestions + RecordSuggestions(e)
  {
    var nazev := Strip(GetText(e, TITLE));
    var organizator := Strip(GetText(e, ORGANIZER));
    var misto := Strip(GetText(e, PLACE));
    var kategorie := Strip(GetText(e, CATEGORY));
    var popis := Strip(GetText(e, DESCRIPTION));
    suggestions' := AddFields(nazev, organizator, misto, kategorie, popis, suggestions);
  }

  method AddFields(nazev: string, organizator: string, misto: string, kategorie: string, popis: string, suggestions: set<string>)
    returns (suggestions': set<string>)
    ensures suggestions' == suggestions + FieldSuggestions(nazev, organizator, misto, kategorie, popis)
  {
    suggestions' := suggestions;
    if nazev != "" && |nazev| > 3 {
      suggestions' := suggestions' + {nazev};
    }
    if organizator != "" && |organizator| > 3 {
      suggestions' := suggestions' + {organizator};
    }
    if misto != "" && |misto| > 3 {
      suggestions' := suggestions' + {misto};
    }
    if kategorie != "" {
      suggestions' := suggestions' + {kategorie};
    }
    ghost var fields := suggestions + LongField(nazev) + LongField(organizator) + LongField(misto)
      + (if kategorie != "" then {kategorie} else {});
    assert suggestions' == fields;
    if popis != "" {
      suggestions' := AddWords(popis, suggestions');
    } else {
      NoWords();
    }
    UnionRegroup(suggestions, LongField(nazev), LongField(organizator), LongField(misto),
      if kategorie != "" then {kategorie} else {}, WordSuggestions(popis));
  }

  lemma UnionRegroup(s: set<string>, a: set<string>, b: set<string>, c: set<string>, d: set<string>, w: set<string>)
    ensures s + (a + b + c + d + w) == s + a + b + c + d + w
  {
  }

  lemma NoWords()
    ensures WordSuggestions("") == {}
  {
    assert TrimStart("", SpaceSelector()) == [];
  }

  /** Adding the kept description words. */
  method AddWords(popis: string, suggestions: set<string>) returns (suggestions': set<string>)
    ensures suggestions' == suggestions + WordSuggestions(popis)
  {
    var words := Words(popis);
    suggestions' := AddCleanWords(words, CleanWord, suggestions);
    AllWordsKept(popis);
  }

  /** The loop over the description words: each word, cleaned by `clean`, is added
      when it is longer than four letters. */
  method AddCleanWords(words: seq<string>, clean: string -> string, suggestions: set<string>)
    returns (suggestions': set<string>)
    ensures suggestions' == suggestions + KeptBy(words, clean)
  {
    suggestions' := suggestions;
    for j := 0 to |words|
      invariant suggestions' == suggestions + KeptBy(words[..j], clean)
    {
      var cleanWord := clean(words[j]);
      KeptByStep(words, j, clean, cleanWord);
      if |cleanWord| > 4 && IsAlpha(cleanWord) {
        suggestions' := suggestions' + {cleanWord};
      }
    }
    assert words[..|words|] == words;
  }

  /** Keeping the cleaned words of the whole description gives its suggestions. */
  lemma AllWordsKept(popis: string)
    ensures KeptBy(Words(popis), CleanWord) == WordSuggestions(popis)
  {
  }

  /** The words whose image under `clean` is kept, as their images. */
  function KeptBy(words: seq<string>, clean: string -> string): set<string> {
    set w | w in words && KeptWord(clean(w)) :: clean(w)
  }

  lemma KeptByStep(words: seq<string>, j: nat, clean: string -> string, c: string)
    requires j < |words| && c == clean(words[j])
    ensures KeptBy(words[..j + 1], clean) == KeptBy(words[..j], clean) + (if |c| > 4 && IsAlpha(c) then {c} else {})
  {
    assert words[..j + 1] == words[..j] + [words[j]];
  }

  /** The text a suggestion is counted in: the five fields joined by spaces, lower
      cased. */
  function SearchText(e: Dict<JsonValue>): string {
    Lower(RawText(e))
  }

  function RawText(e: Dict<JsonValue>): string {
    GetText(e, TITLE) + " " + GetText(e, DESCRIPTION) + " " + GetText(e, ORGANIZER) + " "
      + GetText(e, PLACE) + " " + GetText(e, CATEGORY)
  }

  function MentionsSelector(s: string): Dict<JsonValue> -> bool {
    (e: Dict<JsonValue>) => Contains(SearchText(e), Lower(s))
  }

  /** The number of records whose text contains the lower-cased suggestion. */
  function Mentions(events: seq<Dict<JsonValue>>, s: string): nat {
    |Filter(events, MentionsSelector(s))|
  }

  lemma MentionsStep(events: seq<Dict<JsonValue>>, i: nat, s: string)
    requires i < |events|
    ensures Mentions(events[..i + 1], s) == Mentions(events[..i], s) + (if Contains(SearchText(events[i]), Lower(s)) then 1 else 0)
  {
    assert events[..i + 1] == events[..i] + [events[i]];
    FilterAppend(events[..i], [events[i]], MentionsSelector(s));
    assert Filter([events[i]], MentionsSelector(s)) == (if MentionsSelector(s)(events[i]) then [events[i]] else []) + Filter([], MentionsSelector(s));
  }

  /** A `Counter` over `suggestions`: it holds the suggestions mentioned at least once,
      with their number of mentions. */
  ghost predicate Counted(events: seq<Dict<JsonValue>>, suggestions: seq<string>, wordCounts: map<string, nat>) {
    forall s :: (s in wordCounts <==> s in suggestions && Mentions(events, s) > 0)
      && (s in wordCounts ==> wordCounts[s] == Mentions(events, s))
  }

  /** The counting loop: for each record and each suggestion it contains, one more. */
  method CountMentions(events: seq<Dict<JsonValue>>, suggestions: seq<string>) returns (wordCounts: map<string, nat>)
    requires Distinct(suggestions)
    ensures forall s :: s in wordCounts <==> s in suggestions && Mentions(events, s) > 0
    ensures forall s :: s in wordCounts ==> wordCounts[s] == Mentions(events, s)
  {
    wordCounts := map[];
    for i := 0 to |events|
      invariant Counted(events[..i], suggestions, wordCounts)
    {
      wordCounts := CountRecord(events, i, suggestions, wordCounts);
    }
    assert events[..|events|] == events;
  }

  /** What the inner loop has counted after `j` suggestions of record `i`. */
  ghost function PartCount(events: seq<Dict<JsonValue>>, i: nat, done: seq<string>, s: string): nat
    requires i < |events|
  {
    Mentions(events[..i], s) + if s in done && Contains(SearchText(events[i]), Lower(s)) then 1 else 0
  }

  /** The inner loop's invariant: the counts after `done` of record `i`'s suggestions. */
  ghost predicate PartlyCounted(events: seq<Dict<JsonValue>>, i: nat, suggestions: seq<string>, done: seq<string>, wordCounts: map<string, nat>)
    requires i < |events|
  {
    forall s :: (s in wordCounts <==> s in suggestions && PartCount(events, i, done, s) > 0)
      && (s in wordCounts ==> wordCounts[s] == PartCount(events, i, done, s))
  }

  /** The inner loop of the counting, for record `i`. */
  method CountRecord(events: seq<Dict<JsonValue>>, i: nat, suggestions: seq<string>, wordCounts: map<string, nat>)
    returns (wordCounts': map<string, nat>)
    requires i < |events| && Distinct(suggestions)
    requires Counted(events[..i], suggestions, wordCounts)
    ensures Counted(events[..i + 1], suggestions, wordCounts')
  {
    var textContent := SearchText(events[i]);
    wordCounts' := wordCounts;
    for j := 0 to |suggestions|
      invariant PartlyCounted(events, i, suggestions, suggestions[..j], wordCounts')
    {
      var suggestion := suggestions[j];
      CountedStep(events, i, suggestions, j);
      if Contains(textContent, Lower(suggestion)) {
        var n := if suggestion in wordCounts' then wordCounts'[suggestion] else 0;
        wordCounts' := wordCounts'[suggestion := n + 1];
      }
    }
    assert suggestions[..|suggestions|] == suggestions;
    forall s | s in suggestions ensures PartCount(events, i, suggestions, s) == Mentions(events[..i + 1], s) {
      MentionsStep(events, i, s);
    }
  }

  lemma CountedStep(events: seq<Dict<JsonValue>>, i: nat, suggestions: seq<string>, j: nat)
    requires i < |events| && j < |suggestions| && Distinct(suggestions)
    ensures forall s :: s != suggestions[j] ==> PartCount(events, i, suggestions[..j + 1], s) == PartCount(events, i, suggestions[..j], s)
    ensures PartCount(events, i, suggestions[..j], suggestions[j]) == Mentions(events[..i], suggestions[j])
    ensures PartCount(events, i, suggestions[..j + 1], suggestions[j]) ==
      Mentions(events[..i], suggestions[j]) + if Contains(SearchText(events[i]), Lower(suggestions[j])) then 1 else 0
  {
    assert suggestions[..j + 1] == suggestions[..j] + [suggestions[j]];
    assert suggestions[j] !in suggestions[..j];
  }

  /** `word_counts.get(suggestion, 1)`. */
  function CountOrOne(wordCounts: map<string, nat>, s: string): nat {
    if s in wordCounts then wordCounts[s] else 1
  }

  /** The labels of a list of suggestions. */
  function Labels(r: seq<EventsApi.SearchSuggestion>): (labels: seq<string>)
    ensures |labels| == |r|
    ensures forall i :: 0 <= i < |r| ==> labels[i] == r[i].labelText
  {
    seq(|r|, i requires 0 <= i < |r| => r[i].labelText)
  }

  /** The result objects: each suggestion as id and label, with its count. */
  function SuggestionObjects(top: seq<string>, wordCounts: map<string, nat>): (r: seq<EventsApi.SearchSuggestion>)
    ensures |r| == |top|
    ensures forall i :: 0 <= i < |r| ==> r[i] == EventsApi.SearchSuggestion(top[i], top[i], CountOrOne(wordCounts, top[i]))
  {
    seq(|top|, i requires 0 <= i < |top| => EventsApi.SearchSuggestion(top[i], top[i], CountOrOne(wordCounts, top[i])))
  }

  /** `generate_search_suggestions`: the smallest 100 suggestions in code point order,
      without repeats, each with its label as id and its mention count (1 when it is
      mentioned nowhere). */
  method GenerateSearchSuggestions(events: seq<Dict<JsonValue>>) returns (r: seq<EventsApi.SearchSuggestion>)
    requires TextFields(events, [TITLE, ORGANIZER, PLACE, CATEGORY, DESCRIPTION])
    ensures |r| <= 100
    ensures StrictlySorted(Labels(r))
    ensures forall i :: 0 <= i < |r| ==>
      && r[i].id == r[i].labelText
      && r[i].labelText in AllSuggestions(events)
      && r[i].count == Mentions(events, r[i].labelText)
      && r[i].count >= 1
    ensures |r| < 100 ==> forall s :: s in AllSuggestions(events) ==> s in Labels(r)
    ensures forall s, i :: s in AllSuggestions(events) && 0 <= i < |r| && StrLess(s, r[i].labelText) ==> s in Labels(r)
  {
    var suggestions := CollectSuggestions(events);
    var suggestionsList := SortedList(suggestions);
    SortedDistinct(suggestionsList);
    var wordCounts := CountMentions(events, suggestionsList);
    var top := Take(suggestionsList, 100);
    r := SuggestionObjects(top, wordCounts);
    TopOrder(events, suggestionsList, wordCounts, r);
    TopCounts(events, suggestionsList, wordCounts, r);
  }

  /** The first 100 sorted suggestions keep their order and hold every smaller one. */
  lemma TopOrder(events: seq<Dict<JsonValue>>, list: seq<string>, wordCounts: map<string, nat>, r: seq<EventsApi.SearchSuggestion>)
    requires StrictlySorted(list)
    requires forall y :: y in list <==> y in AllSuggestions(events)
    requires r == SuggestionObjects(Take(list, 100), wordCounts)
    ensures |r| <= 100
    ensures StrictlySorted(Labels(r))
    ensures forall i :: 0 <= i < |r| ==> r[i].id == r[i].labelText && r[i].labelText in AllSuggestions(events)
    ensures |r| < 100 ==> forall s :: s in AllSuggestions(events) ==> s in Labels(r)
    ensures forall s, i :: s in AllSuggestions(events) && 0 <= i < |r| && StrLess(s, r[i].labelText) ==> s in Labels(r)
  {
    var top := Take(list, 100);
    assert Labels(r) == top;
    SmallestFirst(list, 100);
    forall i | 0 <= i < |r| ensures r[i].labelText in AllSuggestions(events) {
      assert top[i] in list;
    }
  }

  /** Each of the first 100 suggestions carries its mention count, which is at least one. */
  lemma TopCounts(events: seq<Dict<JsonValue>>, list: seq<string>, wordCounts: map<string, nat>, r: seq<EventsApi.SearchSuggestion>)
    requires forall y :: y in list <==> y in AllSuggestions(events)
    requires forall s :: s in wordCounts <==> s in list && Mentions(events, s) > 0
    requires forall s :: s in wordCounts ==> wordCounts[s] == Mentions(events, s)
    requires r == SuggestionObjects(Take(list, 100), wordCounts)
    ensures forall i :: 0 <= i < |r| ==> r[i].count == Mentions(events, r[i].labelText) && r[i].count >= 1
  {
    var top := Take(list, 100);
    forall i | 0 <= i < |r| ensures r[i].count == Mentions(events, r[i].labelText) >= 1 {
      var x := top[i];
      assert r[i] == EventsApi.SearchSuggestion(x, x, CountOrOne(wordCounts, x));
      assert x == list[i];
      SuggestionMentioned(events, x);
      assert x in wordCounts;
    }
  }

  /** The first `n` of a sorted list are sorted, and hold every element below any of
      them; fewer than `n` means all of them. */
  lemma {:induction false} SmallestFirst(s: seq<string>, n: nat)
    requires StrictlySorted(s)
    ensures StrictlySorted(Take(s, n))
    ensures forall x :: x in Take(s, n) ==> x in s
    ensures |Take(s, n)| < n ==> Take(s, n) == s
    ensures forall x, i :: x in s && 0 <= i < |Take(s, n)| && StrLess(x, Take(s, n)[i]) ==> x in Take(s, n)
  {
    var t := Take(s, n);
    assert t == s[..|t|];
    forall x, i | x in s && 0 <= i < |t| && StrLess(x, t[i]) ensures x in t {
      var k :| 0 <= k < |s| && s[k] == x;
      if k >= i {
        if k > i {
          StrLessTotal(s[i], s[k]);
        } else {
          StrLessIrreflexive(x);
        }
      }
      assert t[k] == x;
    }
  }

  // ---------------------------------------------------------------------------
  // Every suggestion is mentioned: the default count of 1 is never used.

  /** A kept description word lies inside the stripped description. */
  lemma WordSuggestionAt(popis: string, c: string) returns (k: nat)
    requires c in WordSuggestions(popis)
    ensures At(popis, k, c)
  {
    var w := WordSuggestionSource(popis, c);
    var i := WordAt(popis, SpaceSelector(), w);
    var j := CleanWordAt(w);
    k := AtChain(popis, i, w, j, c);
  }

  lemma WordSuggestionSource(popis: string, c: string) returns (w: string)
    requires c in WordSuggestions(popis)
    ensures w in WordsBy(popis, SpaceSelector()) && CleanWord(w) == c
  {
    w :| w in Words(popis) && KeptWord(CleanWord(w)) && CleanWord(w) == c;
  }

  /** A cleaned word lies inside the word. */
  lemma CleanWordAt(w: string) returns (k: nat)
    ensures At(w, k, CleanWord(w))
  {
    k := StripTwiceAt(w, PunctuationSelector(), SpaceSelector());
  }

  /** Each of five texts lies inside them joined by spaces. */
  lemma JoinedAt(t: string, d: string, o: string, p: string, c: string, n: nat) returns (off: nat)
    requires n < 5
    ensures At(t + " " + d + " " + o + " " + p + " " + c, off, [t, d, o, p, c][n])
  {
    off := if n == 0 then 0 else if n == 1 then |t| + 1 else if n == 2 then |t| + |d| + 2
      else if n == 3 then |t| + |d| + |o| + 3 else |t| + |d| + |o| + |p| + 4;
  }

  /** A kept description word lies inside a text holding the description. */
  lemma DescriptionWordAt(raw: string, off: nat, d: string, s: string) returns (k: nat)
    requires At(raw, off, d) && s in WordSuggestions(Strip(d))
    ensures At(raw, k, s)
  {
    var j := WordSuggestionAt(Strip(d), s);
    k := StrippedPartAt(raw, off, d, j, s);
  }

  /** What lies inside the stripped text `d` lies inside any text holding `d`. */
  lemma StrippedPartAt(raw: string, off: nat, d: string, j: nat, s: string) returns (k: nat)
    requires At(raw, off, d) && At(Strip(d), j, s)
    ensures At(raw, k, s)
  {
    var l := StripByWithin(raw, off, d, SpaceSelector());
    k := AtChain(raw, l, Strip(d), j, s);
  }

  /** Where a suggestion of five fields comes from. */
  lemma FieldCases(nazev: string, organizator: string, misto: string, kategorie: string, popis: string, s: string)
    requires s in FieldSuggestions(nazev, organizator, misto, kategorie, popis)
    ensures s == nazev || s == organizator || s == misto || s == kategorie || s in WordSuggestions(popis)
  {
  }

  /** A suggestion taken from five fields occurs in them joined by spaces. */
  lemma FieldsMention(t: string, d: string, o: string, p: string, c: string, s: string) returns (k: nat)
    requires s in FieldSuggestions(Strip(t), Strip(o), Strip(p), Strip(c), Strip(d))
    ensures At(t + " " + d + " " + o + " " + p + " " + c, k, s)
  {
    var n := FieldIndex(Strip(t), Strip(d), Strip(o), Strip(p), Strip(c), s);
    StripOfField(t, d, o, p, c, n);
    k := FieldMention(t, d, o, p, c, s, n);
  }

  /** The field a suggestion of five fields comes from: the description (1) by one of
      its words, any other field as a whole. */
  lemma FieldIndex(nazev: string, popis: string, organizator: string, misto: string, kategorie: string, s: string)
    returns (n: nat)
    requires s in FieldSuggestions(nazev, organizator, misto, kategorie, popis)
    ensures n < 5
    ensures n == 1 ==> s in WordSuggestions(popis)
    ensures n != 1 ==> s == [nazev, popis, organizator, misto, kategorie][n]
  {
    FieldCases(nazev, organizator, misto, kategorie, popis, s);
    n := if s == nazev then 0 else if s == organizator then 2 else if s == misto then 3
      else if s == kategorie then 4 else 1;
  }

  /** A suggestion from the `n`-th of five fields occurs in them joined by spaces. */
  lemma FieldMention(t: string, d: string, o: string, p: string, c: string, s: string, n: nat) returns (k: nat)
    requires n < 5
    requires n == 1 ==> s in WordSuggestions(Strip(d))
    requires n != 1 ==> s == Strip([t, d, o, p, c][n])
    ensures At(t + " " + d + " " + o + " " + p + " " + c, k, s)
  {
    if n == 1 {
      k := DescriptionMention(t, d, o, p, c, s);
    } else {
      k := StrippedFieldAt(t, d, o, p, c, n);
    }
  }

  /** A kept word of the description occurs in the five fields joined by spaces. */
  lemma DescriptionMention(t: string, d: string, o: string, p: string, c: string, s: string) returns (k: nat)
    requires s in WordSuggestions(Strip(d))
    ensures At(t + " " + d + " " + o + " " + p + " " + c, k, s)
  {
    var off := JoinedDescriptionAt(t, d, o, p, c);
    k := DescriptionWordAt(t + " " + d + " " + o + " " + p + " " + c, off, d, s);
  }

  /** The description lies inside the five fields joined by spaces. */
  lemma JoinedDescriptionAt(t: string, d: string, o: string, p: string, c: string) returns (off: nat)
    ensures At(t + " " + d + " " + o + " " + p + " " + c, off, d)
  {
    off := JoinedAt(t, d, o, p, c, 1);
    assert [t, d, o, p, c][1] == d;
  }

  /** Each of five texts, stripped, lies inside them joined by spaces. */
  lemma StrippedFieldAt(t: string, d: string, o: string, p: string, c: string, n: nat) returns (k: nat)
    requires n < 5
    ensures At(t + " " + d + " " + o + " " + p + " " + c, k, Strip([t, d, o, p, c][n]))
  {
    var off := JoinedAt(t, d, o, p, c, n);
    k := StripByWithin(t + " " + d + " " + o + " " + p + " " + c, off, [t, d, o, p, c][n], SpaceSelector());
  }

  /** Stripping the `n`-th of five texts is taking the `n`-th of the five stripped. */
  lemma StripOfField(t: string, d: string, o: string, p: string, c: string, n: nat)
    requires n < 5
    ensures Strip([t, d, o, p, c][n]) == [Strip(t), Strip(d), Strip(o), Strip(p), Strip(c)][n]
  {
    MapOfFifth((x: string) => Strip(x), t, d, o, p, c, n);
  }

  /** A function applied to the `n`-th of five values is the `n`-th of the results. */
  lemma MapOfFifth(f: string -> string, a: string, b: string, c: string, d: string, e: string, n: nat)
    requires n < 5
    ensures f([a, b, c, d, e][n]) == [f(a), f(b), f(c), f(d), f(e)][n]
  {
  }


  /** A suggestion taken from a record occurs in that record's search text. */
  lemma RecordMentions(e: Dict<JsonValue>, s: string)
    requires s in RecordSuggestions(e)
    ensures Contains(SearchText(e), Lower(s))
  {
    var k := FieldsMention(GetText(e, TITLE), GetText(e, DESCRIPTION), GetText(e, ORGANIZER),
      GetText(e, PLACE), GetText(e, CATEGORY), s);
    LowerAt(RawText(e), k, s);
    ContainsAt(SearchText(e), Lower(s), k);
  }

  /** A collected suggestion comes from some record. */
  lemma {:induction false} SuggestionSource(events: seq<Dict<JsonValue>>, s: string) returns (i: nat)
    requires s in AllSuggestions(events)
    ensures i < |events| && s in RecordSuggestions(events[i])
    decreases |events|
  {
    if events == [] {
      assert false;
    }
    var n := |events| - 1;
    var init := events[..n];
    SuggestionInitOrLast(events, s);
    if s in AllSuggestions(init) {
      i := SuggestionSource(init, s);
      assert init[i] == events[i];
    } else {
      i := n;
    }
  }

  lemma SuggestionInitOrLast(events: seq<Dict<JsonValue>>, s: string)
    requires events != [] && s in AllSuggestions(events)
    ensures s in AllSuggestions(events[..|events| - 1]) || s in RecordSuggestions(events[|events| - 1])
  {
  }

  /** Every collected suggestion occurs in the text of at least one record, so its
      count is its number of mentions and `.get(suggestion, 1)` never falls back. */
  lemma SuggestionMentioned(events: seq<Dict<JsonValue>>, s: string)
    requires s in AllSuggestions(events)
    ensures Mentions(events, s) >= 1
  {
    var i := SuggestionSource(events, s);
    RecordMentions(events[i], s);
    FilterMember(events, MentionsSelector(s), events[i]);
  }
}
