/** `Scraper.scrape_fighter` and `Scraper.isNone`: turning what the lookups of one fighter profile page
    found into a fighter record, or into the error the lookups raise. The HTML tree itself is not modelled:
    a `Page` holds the text each lookup reaches, or `None` where an element of its chain is missing. */
module Scraper {
  import opened Wrappers
  import opened Text
  import opened Dates

  /** A `span class="result"` badge: its own first text, and the first text of the next `span` sibling,
      `None` when there is no such sibling. */
  datatype Badge = Badge(title: string, count: Option<string>)

  /** The text each lookup of a profile page reaches. */
  datatype Page = Page(
    name: Option<string>,         // h1 itemprop=name, its span's first text
    birthDate: Option<string>,    // span itemprop=birthDate, first text
    locality: Option<string>,     // span itemprop=addressLocality, first text
    nationality: Option<string>,  // strong itemprop=nationality, first text
    height: Option<string>,       // span class="item height", LAST text
    weight: Option<string>,       // span class="item weight", LAST text
    association: Option<string>,  // h5 class="item association" > strong > span > a > span, first text
    results: seq<Badge>,          // every span class="result", in document order
    lastFight: Option<string>)    // span class="sub_line", first text

  /** The exceptions `scrape_fighter` lets escape. */
  datatype ScrapeError =
    | AttributeError  // a required element, or a badge's sibling, is missing
    | ValueError      // a date string `strptime` rejects

  /** A win, loss or draw count: the integer 0 the table is seeded with, or the text of a badge's sibling. */
  datatype Count = DefaultZero | Scraped(text: string)

  datatype Tally = Tally(wins: Count, losses: Count, draws: Count)

  /** The record `scrape_fighter` returns. */
  datatype Fighter = Fighter(
    id: string,
    name: string,
    birthDate: Option<string>,
    locality: Option<string>,
    nationality: Option<string>,
    heightCm: Option<string>,
    weightKg: Option<string>,
    campTeam: Option<string>,
    wins: Count,
    losses: Count,
    draws: Count,
    lastFight: string)

  /** `Scraper.isNone`. */
  function IsNone<T>(x: Option<T>): (r: bool)
    ensures r <==> x == None
  {
    if x.Some? then false else true
  }

  // ---------------------------------------------------------------- win/loss/draw table

  /** Every badge has the sibling its count is read from. */
  predicate AllCounted(results: seq<Badge>)
  {
    forall i :: 0 <= i < |results| ==> results[i].count.Some?
  }

  /** The count of the LAST badge whose lower-cased label is `key`, or the seeded zero when there is none. */
  function CountFor(results: seq<Badge>, key: string): Count
    requires AllCounted(results)
  {
    if results == [] then DefaultZero
    else
      var last := results[|results| - 1];
      if Lower(last.title) == key then Scraped(last.count.value)
      else CountFor(results[..|results| - 1], key)
  }

  /** What the overlay loop leaves in the table's three keys, or the `AttributeError` of a missing sibling. */
  function TallyOf(results: seq<Badge>): Result<Tally, ScrapeError>
  {
    if AllCounted(results) then
      Success(Tally(CountFor(results, "wins"), CountFor(results, "losses"), CountFor(results, "draws")))
    else Failure(AttributeError)
  }

  lemma CountForStep(results: seq<Badge>, b: Badge, key: string)
    requires AllCounted(results + [b])
    ensures AllCounted(results) && b.count.Some?
    ensures CountFor(results + [b], key)
         == if Lower(b.title) == key then Scraped(b.count.value) else CountFor(results, key)
  {
    assert (results + [b])[|results|] == b;
    assert (results + [b])[..|results|] == results;
    assert forall i :: 0 <= i < |results| ==> results[i] == (results + [b])[i];
  }

  /** The seeded zero survives exactly when no badge's lower-cased label is `key`. */
  lemma {:induction false} CountForDefault(results: seq<Badge>, key: string)
    requires AllCounted(results)
    ensures CountFor(results, key) == DefaultZero
        <==> forall i :: 0 <= i < |results| ==> Lower(results[i].title) != key
    decreases |results|
  {
    if results != [] {
      var init := results[..|results| - 1];
      assert results == init + [results[|results| - 1]];
      CountForStep(init, results[|results| - 1], key);
      CountForDefault(init, key);
    }
  }

  /** When several badges carry the label, the last one in document order wins. */
  lemma {:induction false} CountForLast(results: seq<Badge>, key: string, i: nat)
    requires AllCounted(results)
    requires i < |results| && Lower(results[i].title) == key
    requires forall j :: i < j < |results| ==> Lower(results[j].title) != key
    ensures CountFor(results, key) == Scraped(results[i].count.value)
    decreases |results|
  {
    var init := results[..|results| - 1];
    assert results == init + [results[|results| - 1]];
    CountForStep(init, results[|results| - 1], key);
    if i < |results| - 1 {
      CountForLast(init, key, i);
    }
  }

  /** A scraped count is the count of a badge with that label that no later badge overrides. */
  lemma {:induction false} CountForWitness(results: seq<Badge>, key: string)
    requires AllCounted(results) && CountFor(results, key).Scraped?
    ensures exists i :: 0 <= i < |results| && Lower(results[i].title) == key
              && results[i].count == Some(CountFor(results, key).text)
              && forall j :: i < j < |results| ==> Lower(results[j].title) != key
    decreases |results|
  {
    var n := |results|;
    var init := results[..n - 1];
    assert results == init + [results[n - 1]];
    CountForStep(init, results[n - 1], key);
    if Lower(results[n - 1].title) != key {
      CountForWitness(init, key);
      var i :| 0 <= i < |init| && Lower(init[i].title) == key
              && init[i].count == Some(CountFor(init, key).text)
              && forall j :: i < j < |init| ==> Lower(init[j].title) != key;
      assert results[i] == init[i];
    }
  }

  /** A badge whose label is not `key` does not affect that count, wherever it stands. */
  lemma {:induction false} CountForIgnores(pre: seq<Badge>, b: Badge, post: seq<Badge>, key: string)
    requires AllCounted(pre + [b] + post) && AllCounted(pre + post)
    requires Lower(b.title) != key
    ensures CountFor(pre + [b] + post, key) == CountFor(pre + post, key)
    decreases |post|
  {
    if post == [] {
      assert pre + [b] + post == pre + [b];
      assert pre + post == pre;
      CountForStep(pre, b, key);
    } else {
      var init, last := post[..|post| - 1], post[|post| - 1];
      assert pre + [b] + post == (pre + [b] + init) + [last];
      assert pre + post == (pre + init) + [last];
      CountForStep(pre + [b] + init, last, key);
      CountForStep(pre + init, last, key);
      CountForIgnores(pre, b, init, key);
    }
  }

  /** Every badge of a concatenation has a count sibling exactly when every badge of both parts does. */
  lemma AllCountedConcat(u: seq<Badge>, v: seq<Badge>)
    ensures AllCounted(u + v) <==> AllCounted(u) && AllCounted(v)
  {
    assert forall i :: 0 <= i < |u| ==> (u + v)[i] == u[i];
    assert forall i :: 0 <= i < |v| ==> (u + v)[|u| + i] == v[i];
    if AllCounted(u) && AllCounted(v) {
      forall i | 0 <= i < |u + v| ensures (u + v)[i].count.Some? {
        if i >= |u| { assert (u + v)[i] == v[i - |u|]; }
      }
    }
  }

  /** Whether every badge has a count sibling does not depend on one badge that has one. */
  lemma AllCountedWithout(pre: seq<Badge>, b: Badge, post: seq<Badge>)
    requires b.count.Some?
    ensures AllCounted(pre + [b] + post) <==> AllCounted(pre + post)
  {
    AllCountedConcat(pre + [b], post);
    AllCountedConcat(pre, [b]);
    AllCountedConcat(pre, post);
  }

  /** A badge with any label other than "wins", "losses" and "draws" leaves all three counts unchanged. */
  lemma TallyIgnoresOtherLabels(pre: seq<Badge>, b: Badge, post: seq<Badge>)
    requires b.count.Some?
    requires Lower(b.title) != "wins" && Lower(b.title) != "losses" && Lower(b.title) != "draws"
    ensures TallyOf(pre + [b] + post) == TallyOf(pre + post)
  {
    AllCountedWithout(pre, b, post);
    if AllCounted(pre + [b] + post) {
      CountForIgnores(pre, b, post, "wins");
      CountForIgnores(pre, b, post, "losses");
      CountForIgnores(pre, b, post, "draws");
    }
  }

  /** The `wld` table of `scrape_fighter`: seeded with three zeroes, then every badge sets the entry of its
      lower-cased label to its sibling's text; a badge without sibling raises `AttributeError`. */
  method OverlayResults(results: seq<Badge>) returns (r: Result<Tally, ScrapeError>)
    ensures r == TallyOf(results)
  {
    var wld: map<string, Count> := map[];
    wld := wld["wins" := DefaultZero];
    wld := wld["losses" := DefaultZero];
    wld := wld["draws" := DefaultZero];
    var i := 0;
    while i < |results|
      invariant 0 <= i <= |results|
      invariant AllCounted(results[..i])
      invariant "wins" in wld && wld["wins"] == CountFor(results[..i], "wins")
      invariant "losses" in wld && wld["losses"] == CountFor(results[..i], "losses")
      invariant "draws" in wld && wld["draws"] == CountFor(results[..i], "draws")
    {
      var badge := results[i];
      if badge.count.None? {
        return Failure(AttributeError);
      }
      wld := wld[Lower(badge.title) := Scraped(badge.count.value)];
      assert results[..i + 1] == results[..i] + [badge];
      CountForStep(results[..i], badge, "wins");
      CountForStep(results[..i], badge, "losses");
      CountForStep(results[..i], badge, "draws");
      i := i + 1;
    }
    assert results[..i] == results;
    return Success(Tally(wld["wins"], wld["losses"], wld["draws"]));
  }

  // ---------------------------------------------------------------- single fields

  /** The birth date: absent when the element is missing or reads "N/A", otherwise the ISO rendering of
      the date, or the `ValueError` of `strptime`. */
  function BirthDateField(text: Option<string>): (r: Result<Option<string>, ScrapeError>)
    ensures r == Success(None) <==> text.None? || text == Some("N/A")
    ensures r.Failure? <==> text.Some? && text.value != "N/A" && ParseIsoDate(text.value).None?
    ensures r.Failure? ==> r.error == ValueError
    ensures r.Success? && r.value.Some? ==> text.Some? && r.value.value == text.value + "T00:00:00"
  {
    match text
    case None => Success(None)
    case Some(s) =>
      if s == "N/A" then Success(None)
      else match ParseIsoDate(s)
        case None => Failure(ValueError)
        case Some(d) => IsoDateCanonical(s); Success(Some(IsoFormat(d)))
  }

  /** The last fight: `AttributeError` when the element is missing, the `ValueError` of `strptime`, or the
      ISO rendering, which keeps the year and day digits and spells the month as its number. */
  function LastFightField(text: Option<string>): (r: Result<string, ScrapeError>)
    ensures r.Failure? && r.error == AttributeError <==> text.None?
    ensures r.Failure? && r.error == ValueError <==> text.Some? && ParseLastFight(text.value).None?
    ensures r.Success? ==> text.Some? && ParseLastFight(text.value).Some?
    ensures r.Success? ==> r.value == text.value[11..] + "-" + Padded(ParseLastFight(text.value).value.month, 2)
                                      + "-" + text.value[6..8] + "T00:00:00"
  {
    match text
    case None => Failure(AttributeError)
    case Some(s) =>
      match ParseLastFight(s)
      case None => Failure(ValueError)
      case Some(d) => LastFightIso(s); Success(IsoFormat(d))
  }

  /** Height or weight: the text stripped of surrounding whitespace, then every occurrence of the unit
      (" cm" or " kg") deleted. */
  function Measurement(text: Option<string>, unit: string): (r: Option<string>)
    requires unit != []
    ensures r.None? <==> text.None?
  {
    match text
    case None => None
    case Some(t) => Some(Removed(Strip(t), unit))
  }

  /** Whitespace around a number followed by its unit leaves just the number. */
  lemma MeasurementOfPadded(pre: string, number: string, unit: string, post: string)
    requires unit != [] && !IsSpace(unit[|unit| - 1]) && unit[0] !in number
    requires number != [] && !IsSpace(number[0])
    requires AllSpace(pre) && AllSpace(post)
    ensures Measurement(Some(pre + number + unit + post), unit) == Some(number)
  {
    var t := number + unit;
    assert pre + number + unit + post == pre + t + post;
    assert t[0] == number[0] && t[|t| - 1] == unit[|unit| - 1];
    StripPadded(pre, t, post);
    RemovedUnitSuffix(number, unit);
  }

  lemma HeightExample()
    ensures Measurement(Some(" 180 cm "), " cm") == Some("180")
  {
    assert " 180 cm " == " " + "180" + " cm" + " ";
    MeasurementOfPadded(" ", "180", " cm", " ");
  }

  lemma WeightExample()
    ensures Measurement(Some(" 84 kg "), " kg") == Some("84")
  {
    assert " 84 kg " == " " + "84" + " kg" + " ";
    MeasurementOfPadded(" ", "84", " kg", " ");
  }

  // ---------------------------------------------------------------- the record

  /** `scrape_fighter(fighter_id)` once the page is fetched and the lookups are done. The lookups run in
      source order, so the first error raised is the one that escapes. */
  function Scrape(fighterId: nat, page: Page): Result<Fighter, ScrapeError>
  {
    if page.name.None? then Failure(AttributeError)
    else
      var birthDate :- BirthDateField(page.birthDate);
      var tally :- TallyOf(page.results);
      var lastFight :- LastFightField(page.lastFight);
      Success(Fighter(
        Decimal(fighterId), page.name.value, birthDate, page.locality, page.nationality,
        Measurement(page.height, " cm"), Measurement(page.weight, " kg"), page.association,
        tally.wins, tally.losses, tally.draws, lastFight))
  }

  /** The birth date is present and `strptime` rejects it. */
  predicate MalformedBirthDate(page: Page)
  {
    page.birthDate.Some? && page.birthDate.value != "N/A" && ParseIsoDate(page.birthDate.value).None?
  }

  /** The last-fight line is present and `strptime` rejects it. */
  predicate MalformedLastFight(page: Page)
  {
    page.lastFight.Some? && ParseLastFight(page.lastFight.value).None?
  }

  /** Which pages give a record, which raise `AttributeError` (the driver's skip) and which raise
      `ValueError` (which nothing catches). */
  lemma ScrapeOutcome(fighterId: nat, page: Page)
    ensures Scrape(fighterId, page).Success?
        <==> page.name.Some? && !MalformedBirthDate(page) && AllCounted(page.results)
             && page.lastFight.Some? && !MalformedLastFight(page)
    ensures Scrape(fighterId, page) == Failure(ValueError)
        <==> page.name.Some?
             && (MalformedBirthDate(page) || (AllCounted(page.results) && MalformedLastFight(page)))
    ensures Scrape(fighterId, page) == Failure(AttributeError)
        <==> page.name.None?
             || (!MalformedBirthDate(page) && (!AllCounted(page.results) || page.lastFight.None?))
  {
  }

  /** A record carries the counter as its decimal identifier, and its birth and last-fight dates in ISO form. */
  lemma ScrapeRecord(fighterId: nat, page: Page)
    requires Scrape(fighterId, page).Success?
    ensures var f := Scrape(fighterId, page).value;
      && AllDigits(f.id) && DigitsValue(f.id) == fighterId
      && f.name == page.name.value
      && (f.birthDate.None? <==> page.birthDate.None? || page.birthDate == Some("N/A"))
      && (f.birthDate.Some? ==> f.birthDate.value == page.birthDate.value + "T00:00:00")
      && |f.lastFight| == 19 && f.lastFight[10..] == "T00:00:00"
  {
  }

  /** In a record, each count stays 0 exactly when no badge is labelled with its key, and otherwise is
      the text of the last badge so labelled. */
  lemma ScrapeCounts(fighterId: nat, page: Page, key: string)
    requires Scrape(fighterId, page).Success?
    requires key in ["wins", "losses", "draws"]
    ensures var f := Scrape(fighterId, page).value;
      var c := if key == "wins" then f.wins else if key == "losses" then f.losses else f.draws;
      && (c == DefaultZero <==> forall i :: 0 <= i < |page.results| ==> Lower(page.results[i].title) != key)
      && (c.Scraped? ==>
            (exists i :: 0 <= i < |page.results| && Lower(page.results[i].title) == key
               && page.results[i].count == Some(c.text)
               && forall j :: i < j < |page.results| ==> Lower(page.results[j].title) != key))
  {
    var f := Scrape(fighterId, page).value;
    assert TallyOf(page.results).Success?;
    var c := if key == "wins" then f.wins else if key == "losses" then f.losses else f.draws;
    assert c == CountFor(page.results, key);
    CountForDefault(page.results, key);
    if c.Scraped? {
      CountForWitness(page.results, key);
    }
  }

  /** `scrape_fighter` as the statements run: required name, birth date, the plain fields, the overlay
      loop, then the last fight. */
  method ScrapeFighter(fighterId: nat, page: Page) returns (r: Result<Fighter, ScrapeError>)
    ensures r == Scrape(fighterId, page)
  {
    var id := Decimal(fighterId);
    if page.name.None? {
      return Failure(AttributeError);
    }
    var name := page.name.value;
    var birthDate :- BirthDateField(page.birthDate);
    var locality := page.locality;
    var nationality := page.nationality;
    var heightCm := Measurement(page.height, " cm");
    var weightKg := Measurement(page.weight, " kg");
    var campTeam := page.association;
    var tally :- OverlayResults(page.results);
    var lastFight :- LastFightField(page.lastFight);
    r := Success(Fighter(id, name, birthDate, locality, nationality, heightCm, weightKg, campTeam,
                         tally.wins, tally.losses, tally.draws, lastFight));
  }
}
