/** The event list: what the view shows for the loading flag and the events, and how
    each card presents one event (title and id fallbacks, the date and time texts, the
    shortened description and the tags). Icons are kept as their kind and colour;
    the markup and styles are not part of the model. */
module EventsList {
  import opened Wrappers
  import opened Text
  import opened Time
  import opened EventTypes
  import EventsApi

  // ---------------------------------------------------------------------------
  // The description.

  const DESCRIPTION_LIMIT: nat := 150
  const ELLIPSIS: string := "..."

  /** `s.length > 150 ? s.substring(0, 150) + "..." : s`. */
  function Truncate(s: string): (r: string)
    ensures |s| <= DESCRIPTION_LIMIT ==> r == s
    ensures |s| > DESCRIPTION_LIMIT ==>
      |r| == DESCRIPTION_LIMIT + |ELLIPSIS| && r[..DESCRIPTION_LIMIT] == s[..DESCRIPTION_LIMIT]
      && r[DESCRIPTION_LIMIT..] == ELLIPSIS
  {
    if |s| > DESCRIPTION_LIMIT then s[..DESCRIPTION_LIMIT] + ELLIPSIS else s
  }

  /** A shown description has at most 153 characters; it is unchanged exactly when
      the description fits, or already is 150 characters and "..."; and shortening it
      again changes nothing. */
  lemma TruncateShape(s: string)
    ensures |Truncate(s)| <= DESCRIPTION_LIMIT + |ELLIPSIS|
    ensures Truncate(s) == s <==>
      |s| <= DESCRIPTION_LIMIT || (|s| == DESCRIPTION_LIMIT + |ELLIPSIS| && s[DESCRIPTION_LIMIT..] == ELLIPSIS)
    ensures Truncate(Truncate(s)) == Truncate(s)
  {
    if |s| > DESCRIPTION_LIMIT {
      var r := Truncate(s);
      assert r[..DESCRIPTION_LIMIT] + ELLIPSIS == r;
      if |s| == DESCRIPTION_LIMIT + |ELLIPSIS| && s[DESCRIPTION_LIMIT..] == ELLIPSIS {
        assert s == s[..DESCRIPTION_LIMIT] + s[DESCRIPTION_LIMIT..];
      }
    }
  }

  // ---------------------------------------------------------------------------
  // The date and time texts.

  /** The local calendar fields of a `Date`: `getFullYear()`, `getMonth()` (0 is
      January), `getDate()`, `getHours()` and `getMinutes()`. */
  datatype LocalFields = LocalFields(year: int, month: nat, day: nat, hours: nat, minutes: nat)

  /** The fields a real calendar gives. */
  predicate ValidFields(f: LocalFields) {
    f.month < 12 && 1 <= f.day <= 31 && f.hours < 24 && f.minutes < 60
  }

  /** `new Date(s)` broken into local fields; `None` is an Invalid Date, whose fields
      are all NaN. */
  type FieldsParser = string -> Option<LocalFields>

  datatype DateText = DateText(date: string, time: string)

  /** `String(NaN)`; `padStart` leaves it as it is, being longer than two. */
  const NAN: string := "NaN"

  /** `formatDate`: the day unpadded, the month and the time fields padded to two
      digits. An empty string gives two empty texts; an unparseable one gives the
      texts of NaN fields (the `catch` branch cannot be reached). */
  function FormatDate(s: string, fields: FieldsParser): (r: DateText)
    ensures r.date == "" <==> s == ""
    ensures r.time == "" <==> s == ""
  {
    if s == "" then DateText("", "")
    else match fields(s)
      case None => DateText(NAN + ". " + NAN + ". " + NAN, NAN + ":" + NAN)
      case Some(f) =>
        DateText(NatToString(f.day) + ". " + ZeroPad(f.month + 1, 2) + ". " + IntToString(f.year),
          ZeroPad(f.hours, 2) + ":" + ZeroPad(f.minutes, 2))
  }

  /** A number below 100 renders in one digit below 10 and in two otherwise. */
  lemma SmallNumberWidth(n: nat)
    requires n < 100
    ensures |NatToString(n)| == if n < 10 then 1 else 2
  {
  }

  /** The time text is "HH:MM" and both fields read back. */
  lemma {:induction false} TimeTextReadsBack(s: string, fields: FieldsParser)
    requires s != "" && fields(s).Some? && ValidFields(fields(s).value)
    ensures var f, t := fields(s).value, FormatDate(s, fields).time;
      && |t| == 5 && t[2] == ':'
      && AllDigits(t[..2]) && DigitsValue(t[..2]) == f.hours
      && AllDigits(t[3..]) && DigitsValue(t[3..]) == f.minutes
  {
    var f := fields(s).value;
    var t := FormatDate(s, fields).time;
    assert Pow10(2) == 100 by { assert Pow10(1) == 10; }
    PaddedField(f.hours, 2);
    PaddedField(f.minutes, 2);
    assert t == ZeroPad(f.hours, 2) + ":" + ZeroPad(f.minutes, 2);
    assert t[..2] == ZeroPad(f.hours, 2);
    assert t[3..] == ZeroPad(f.minutes, 2);
  }

  /** The date text is "<day>. <MM>. <year>": the day in one or two digits with no
      leading zero, the month (counted from 1) in exactly two, and the year as
      rendered; each reads back. */
  lemma {:induction false} DateTextReadsBack(s: string, fields: FieldsParser)
    requires s != "" && fields(s).Some? && ValidFields(fields(s).value)
    ensures var f, d := fields(s).value, FormatDate(s, fields).date;
      var n := if f.day < 10 then 1 else 2;
      && |d| == n + 6 + |IntToString(f.year)|
      && AllDigits(d[..n]) && DigitsValue(d[..n]) == f.day && d[0] != '0'
      && d[n..n + 2] == ". "
      && AllDigits(d[n + 2..n + 4]) && DigitsValue(d[n + 2..n + 4]) == f.month + 1
      && d[n + 4..n + 6] == ". "
      && d[n + 6..] == IntToString(f.year)
  {
    var f := fields(s).value;
    var d := FormatDate(s, fields).date;
    var day := NatToString(f.day);
    var mm := ZeroPad(f.month + 1, 2);
    assert Pow10(2) == 100 by { assert Pow10(1) == 10; }
    PaddedField(f.month + 1, 2);
    SmallNumberWidth(f.day);
    NatToStringRoundTrip(f.day);
    assert d == day + ". " + mm + ". " + IntToString(f.year);
    DateParts(day, mm, IntToString(f.year));
  }

  /** Where the three fields of "<day>. <MM>. <year>" lie. */
  lemma DateParts(day: string, mm: string, year: string)
    requires |mm| == 2
    ensures var d, n := day + ". " + mm + ". " + year, |day|;
      && d[..n] == day && d[n..n + 2] == ". " && d[n + 2..n + 4] == mm
      && d[n + 4..n + 6] == ". " && d[n + 6..] == year
  {
  }

  // ---------------------------------------------------------------------------
  // Tags.

  /** The icon a tag carries: the gear and the crossed circle drawn with a stroke
      colour, an emoji, or the warning triangle filled with a colour. */
  datatype Icon = Gear(stroke: string) | CrossedCircle(stroke: string) | Emoji(text: string) | Triangle(fill: string)

  /** A tag: its text, background colour, text colour and optional icon. */
  datatype Tag = Tag(labelText: string, color: string, textColor: string, icon: Option<Icon>)

  const KNOWN_CATEGORIES: set<string> := {
    "Událost ISVS", "Odstávky", "Veřejná událost", "Akce eGovernmentu", "Riziko A", "Riziko B", "Riziko C"
  }

  /** `getCategoryTag`: the configured colours and icon of a known category, and grey
      with no icon for any other; the tag shows the category name. */
  function GetCategoryTag(category: string): (r: Tag)
    ensures r.labelText == category
    ensures r.icon.Some? <==> category in KNOWN_CATEGORIES
    ensures category !in KNOWN_CATEGORIES ==> r == Tag(category, "#6c757d", "#fff", None)
  {
    if category == "Událost ISVS" then Tag(category, "#FEF7C3", "#6B4A0D", Some(Gear("#ffc107")))
    else if category == "Odstávky" then Tag(category, "#FDE3E3", "#6B4A0D", Some(CrossedCircle("#6B4A0D")))
    else if category == "Veřejná událost" then Tag(category, "#17a2b8", "#fff", Some(Emoji("\U{1F465}")))
    else if category == "Akce eGovernmentu" then Tag(category, "#28a745", "#fff", Some(Emoji("\U{1F4BB}")))
    else if category == "Riziko A" then Tag(category, "#28a745", "#fff", Some(Triangle("#fff")))
    else if category == "Riziko B" then Tag(category, "#ffc107", "#000", Some(Triangle("#000")))
    else if category == "Riziko C" then Tag(category, "#dc3545", "#fff", Some(Triangle("#fff")))
    else Tag(category, "#6c757d", "#fff", None)
  }

  const RISK_LEVELS: set<string> := {"A", "B", "C"}

  /** `getRiskTag`: a tag "Riziko <level>" for the levels A, B and C, and no tag for
      the empty level or any other. */
  function GetRiskTag(level: string): (r: Option<Tag>)
    ensures r.Some? <==> level in RISK_LEVELS
    ensures r.Some? ==> r.value.labelText == "Riziko " + level && r.value.icon.Some?
  {
    if level == "" then None
    else if level == "A" then Some(Tag("Riziko A", "#28a745", "#fff", Some(Triangle("#fff"))))
    else if level == "B" then Some(Tag("Riziko B", "#ffc107", "#000", Some(Triangle("#000"))))
    else if level == "C" then Some(Tag("Riziko C", "#dc3545", "#fff", Some(Triangle("#fff"))))
    else None
  }

  /** The two tables agree: a risk tag looks exactly like the category tag of the
      same name. */
  lemma RiskTagIsCategoryTag(level: string)
    requires GetRiskTag(level).Some?
    ensures GetRiskTag(level).value == GetCategoryTag(GetRiskTag(level).value.labelText)
  {
  }

  /** An executed event shows this status. */
  const DONE_STATE: string := "Realizováno"
  const OUTAGE_TAG: Tag := Tag("Odstávky", "#FDE3E3", "#6B4A0D", None)
  const PLANNED_TAG: Tag := Tag("Plánováno", "#28a745", "#fff", None)

  /** `getStatusTag`: an executed event is an outage whatever its date; otherwise an
      event starting after `now` is planned; otherwise there is no status tag. An
      unparseable start is never after `now`. */
  function GetStatusTag(e: Event, parse: Parser, now: int): (r: Option<Tag>)
    ensures e.stavUdalosti == DONE_STATE ==> r == Some(OUTAGE_TAG)
    ensures e.stavUdalosti != DONE_STATE ==>
      (r == Some(PLANNED_TAG) <==> e.datumZacatek != "" && Less(Some(now), parse(e.datumZacatek)))
    ensures r == None || r == Some(OUTAGE_TAG) || r == Some(PLANNED_TAG)
  {
    if e.stavUdalosti == DONE_STATE then Some(OUTAGE_TAG)
    else if e.datumZacatek != "" && Less(Some(now), parse(e.datumZacatek)) then Some(PLANNED_TAG)
    else None
  }

  /** A planned event stays planned when looked at earlier, and an event without a
      status tag stays without one later. */
  lemma StatusTagInTime(e: Event, parse: Parser, earlier: int, later: int)
    requires earlier <= later
    ensures GetStatusTag(e, parse, later) == Some(PLANNED_TAG) ==> GetStatusTag(e, parse, earlier) == Some(PLANNED_TAG)
    ensures GetStatusTag(e, parse, earlier) == None ==> GetStatusTag(e, parse, later) == None
  {
  }

  /** The outage status looks like the outage category tag, without its icon. */
  lemma OutageLooksLikeCategory()
    ensures OUTAGE_TAG == GetCategoryTag("Odstávky").(icon := None)
  {
  }

  // ---------------------------------------------------------------------------
  // Cards and the list.

  const TITLE_PREFIX: string := "Událost #"

  /** `event.nazev_udalosti || "Událost #" + id_zaznamu`. */
  function Title(e: Event): (r: string)
    ensures r != ""
  {
    if e.nazevUdalosti != "" then e.nazevUdalosti else TITLE_PREFIX + IntToString(e.idZaznamu)
  }

  /** "#" followed by `event.id_udalosti || event.id_zaznamu`. */
  function ShownId(e: Event): (r: string)
    ensures |r| >= 2 && r[0] == '#'
  {
    "#" + if e.idUdalosti != "" then e.idUdalosti else IntToString(e.idZaznamu)
  }

  /** A record without a title is shown under "Událost #<id>", from which the id
      reads back; and that fallback never has the shape "Událost #<digits>.0" of the
      placeholder titles the query hides, which the offline export writes with the
      float rendering of the same id. */
  lemma {:induction false} FallbackTitle(e: Event)
    requires e.nazevUdalosti == ""
    ensures StartsWith(Title(e), TITLE_PREFIX)
    ensures e.idZaznamu >= 0 ==>
      AllDigits(Title(e)[|TITLE_PREFIX|..]) && DigitsValue(Title(e)[|TITLE_PREFIX|..]) == e.idZaznamu
    ensures !EventsApi.IsPlaceholderTitle(Title(e))
  {
    var t := Title(e);
    var id := IntToString(e.idZaznamu);
    assert t[..|TITLE_PREFIX|] == TITLE_PREFIX;
    assert t[|TITLE_PREFIX|..] == id;
    if e.idZaznamu >= 0 {
      NatToStringRoundTrip(e.idZaznamu);
    }
    assert t[|t| - 1] == id[|id| - 1];
    assert IsDigit(id[|id| - 1]) by {
      if e.idZaznamu < 0 {
        assert id[|id| - 1] == NatToString(-e.idZaznamu)[|id| - 2];
      }
    }
    assert t[|t| - 2] != '.' by {
      if |id| >= 2 {
        assert t[|t| - 2] == id[|id| - 2];
        if e.idZaznamu < 0 && |id| == 2 {
          assert id[0] == '-';
        } else if e.idZaznamu < 0 {
          assert id[|id| - 2] == NatToString(-e.idZaznamu)[|id| - 3];
        }
      } else {
        assert t[|t| - 2] == '#';
      }
    }
    assert t[|t| - 2..][0] == t[|t| - 2];
  }

  /** The text of a field shown only when it is non-empty. */
  function ShownIf(s: string): (r: Option<string>)
    ensures r.Some? <==> s != ""
    ensures r.Some? ==> r.value == s
  {
    if s != "" then Some(s) else None
  }

  /** One event card. */
  datatype Card = Card(
    title: string,
    shownId: string,
    organizer: Option<string>,
    date: DateText,
    place: Option<string>,
    description: Option<string>,
    categoryTag: Option<Tag>,
    riskTag: Option<Tag>,
    statusTag: Option<Tag>,
    systemTag: Option<string>)

  /** The card of one event, given how dates parse and the current instant. */
  function RenderCard(e: Event, fields: FieldsParser, parse: Parser, now: int): (c: Card)
    ensures c.title != "" && (e.nazevUdalosti != "" ==> c.title == e.nazevUdalosti)
    ensures c.description.Some? <==> e.popisUdalosti != ""
    ensures c.description.Some? ==> |c.description.value| <= DESCRIPTION_LIMIT + |ELLIPSIS|
    ensures c.categoryTag.Some? <==> e.kategorieNazev != ""
    ensures c.categoryTag.Some? ==> c.categoryTag.value.labelText == e.kategorieNazev
    ensures c.riskTag.Some? <==> e.kategorieRizika in RISK_LEVELS
    ensures c.systemTag.Some? <==> e.zkratkaInformacnihoSystemu != ""
  {
    TruncateShape(e.popisUdalosti);
    Card(
      Title(e),
      ShownId(e),
      ShownIf(e.organizator),
      FormatDate(e.datumZacatek, fields),
      ShownIf(e.mistoKonani),
      if e.popisUdalosti != "" then Some(Truncate(e.popisUdalosti)) else None,
      if e.kategorieNazev != "" then Some(GetCategoryTag(e.kategorieNazev)) else None,
      GetRiskTag(e.kategorieRizika),
      GetStatusTag(e, parse, now),
      ShownIf(e.zkratkaInformacnihoSystemu))
  }

  /** What the component renders: the loading message, the empty-list message, or
      the header count with one card per event. */
  datatype View = Loading | NoEvents | EventCards(count: nat, cards: seq<Card>)

  /** Loading wins over everything; an empty list shows its message; otherwise every
      event gets its card, in order. */
  function RenderList(events: seq<Event>, loading: bool, fields: FieldsParser, parse: Parser, now: int): (v: View)
    ensures loading ==> v == Loading
    ensures v.NoEvents? <==> !loading && events == []
    ensures v.EventCards? <==> !loading && events != []
    ensures v.EventCards? ==>
      && v.count == |events| == |v.cards|
      && forall i :: 0 <= i < |events| ==> v.cards[i] == RenderCard(events[i], fields, parse, now)
  {
    if loading then Loading
    else if |events| == 0 then NoEvents
    else EventCards(|events|, seq(|events|, i requires 0 <= i < |events| => RenderCard(events[i], fields, parse, now)))
  }
}
