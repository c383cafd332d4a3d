/** The `__main__` block of scraper.py: the CSV header, the `str()`-coerced row built from each record,
    and the `while True` loop over the fighter counter `x`. Fetching is replaced by a sequence of steps,
    one per identifier tried: the page the lookups saw, or the keyboard interrupt that ends the run. */
module Driver {
  import opened Wrappers
  import opened Text
  import opened Dates
  import opened Scraper

  const HEADER: seq<string> := ["ID", "Name", "Date of Birth", "Weight (KG)", "Height (CM)", "Locality",
                                "Nationality", "Association", "Wins", "Losses", "Draws", "Last Fight"]

  /** `str()` of an optional text field: `None` becomes the text "None". */
  function OptionText(v: Option<string>): string
  {
    match v
    case None => "None"
    case Some(s) => s
  }

  /** `str()` of a count: the seeded integer 0 becomes "0". */
  function CountText(c: Count): string
  {
    match c
    case DefaultZero => "0"
    case Scraped(s) => s
  }

  /** The data row written for a record: its fields in header order, each coerced with `str()`. */
  function Row(f: Fighter): (row: seq<string>)
    ensures |row| == |HEADER|
  {
    [f.id, f.name, OptionText(f.birthDate), OptionText(f.weightKg), OptionText(f.heightCm),
     OptionText(f.locality), OptionText(f.nationality), OptionText(f.campTeam),
     CountText(f.wins), CountText(f.losses), CountText(f.draws), f.lastFight]
  }

  /** The record field a header title names, rendered as a string. */
  function Column(f: Fighter, title: string): Option<string>
  {
    match title
    case "ID" => Some(f.id)
    case "Name" => Some(f.name)
    case "Date of Birth" => Some(OptionText(f.birthDate))
    case "Weight (KG)" => Some(OptionText(f.weightKg))
    case "Height (CM)" => Some(OptionText(f.heightCm))
    case "Locality" => Some(OptionText(f.locality))
    case "Nationality" => Some(OptionText(f.nationality))
    case "Association" => Some(OptionText(f.campTeam))
    case "Wins" => Some(CountText(f.wins))
    case "Losses" => Some(CountText(f.losses))
    case "Draws" => Some(CountText(f.draws))
    case "Last Fight" => Some(f.lastFight)
    case _ => None
  }

  /** Every column of a data row holds the field its header title names. */
  lemma RowFollowsHeader(f: Fighter)
    ensures forall k :: 0 <= k < |HEADER| ==> Column(f, HEADER[k]) == Some(Row(f)[k])
  {
  }

  /** A data row is never the header: its first column is the record's all-digit identifier. */
  lemma RowIsNotHeader(f: Fighter)
    requires AllDigits(f.id)
    ensures Row(f) != HEADER
  {
    assert Row(f)[0] != HEADER[0] by {
      if |f.id| > 0 {
        assert IsDigit(f.id[0]) && !IsDigit(HEADER[0][0]);
      }
    }
  }

  // ---------------------------------------------------------------- the batch loop

  /** One identifier's turn as the loop sees it: the lookups of its page, or the keyboard interrupt
      that arrives during it. */
  datatype Step = Fetched(page: Page) | Interrupt

  /** What one turn of the loop comes to: what `scrape_fighter` returned or raised, or the interrupt. */
  datatype Attempt = Completed(result: Result<Fighter, ScrapeError>) | Interrupted

  /** One turn with counter `x`: the scrape of the fetched page, or the interrupt. */
  function AttemptOf(x: nat, step: Step): Attempt
  {
    match step
    case Interrupt => Interrupted
    case Fetched(page) => Completed(Scrape(x, page))
  }

  /** The attempts of a run whose counter starts at `x`: the `i`-th step is taken with counter `x + i`. */
  function Attempts(x: nat, steps: seq<Step>): (attempts: seq<Attempt>)
    ensures |attempts| == |steps|
    ensures forall i :: 0 <= i < |steps| ==> attempts[i] == AttemptOf(x + i, steps[i])
  {
    seq(|steps|, i requires 0 <= i < |steps| => AttemptOf(x + i, steps[i]))
  }

  /** The attempt at index `i` is taken with the counter `y` the loop has reached there. */
  lemma AttemptsAt(x: nat, steps: seq<Step>, i: nat, y: nat)
    requires i < |steps| && y == x + i
    ensures Attempts(x, steps)[i] == AttemptOf(y, steps[i])
  {
  }

  /** One turn of the loop body: `scrape_fighter(x)` on the fetched page, unless the interrupt comes. */
  method Turn(x: nat, step: Step) returns (a: Attempt)
    ensures a == AttemptOf(x, step)
  {
    match step {
      case Interrupt =>
        a := Interrupted;
      case Fetched(page) =>
        var r := ScrapeFighter(x, page);
        a := Completed(r);
    }
  }

  datatype Status =
    | Running  // the steps ran out; the real loop would go on with the next identifier
    | Stopped  // a keyboard interrupt ended the loop; the file is closed
    | Crashed  // an exception other than AttributeError escaped the loop

  /** The data rows written, the final counter and how the loop ended. */
  datatype Trace = Trace(rows: seq<seq<string>>, counter: nat, status: Status)

  /** The loop as a state machine from counter `x`: a record is written and the counter advanced, an
      `AttributeError` only advances the counter, an interrupt stops without advancing, and any other
      error escapes. */
  function Drive(x: nat, attempts: seq<Attempt>): Trace
    decreases |attempts|
  {
    if attempts == [] then Trace([], x, Running)
    else match attempts[0]
      case Interrupted => Trace([], x, Stopped)
      case Completed(Success(f)) =>
        var rest := Drive(x + 1, attempts[1..]);
        Trace([Row(f)] + rest.rows, rest.counter, rest.status)
      case Completed(Failure(AttributeError)) => Drive(x + 1, attempts[1..])
      case Completed(Failure(ValueError)) => Trace([], x, Crashed)
  }

  /** The loop gets past this attempt: a record or a skipped identifier. */
  predicate Proceeds(a: Attempt)
  {
    a.Completed? && a.result != Failure(ValueError)
  }

  /** How many identifiers the loop gets through: the attempts before the first interrupt or the first
      error that is not `AttributeError`. */
  function Advances(attempts: seq<Attempt>): (k: nat)
    ensures k <= |attempts|
    ensures forall i :: 0 <= i < k ==> Proceeds(attempts[i])
    ensures k < |attempts| ==> !Proceeds(attempts[k])
    decreases |attempts|
  {
    if attempts == [] || !Proceeds(attempts[0]) then 0
    else
      var k := 1 + Advances(attempts[1..]);
      assert forall i :: 1 <= i < k ==> attempts[i] == attempts[1..][i - 1];
      k
  }

  /** An attempt the loop proceeds past, right after attempts it got through, is got through too. */
  lemma AdvancesPast(attempts: seq<Attempt>, i: nat)
    requires i <= Advances(attempts) && i < |attempts| && Proceeds(attempts[i])
    ensures i + 1 <= Advances(attempts)
  {
  }

  /** The loop stops at an attempt it does not proceed past, or at the end of the attempts. */
  lemma AdvancesAt(attempts: seq<Attempt>, i: nat)
    requires i <= Advances(attempts)
    requires i == |attempts| || (i < |attempts| && !Proceeds(attempts[i]))
    ensures Advances(attempts) == i
  {
  }

  /** The rows of the records among the first `k` attempts, in order. */
  function EmittedRows(attempts: seq<Attempt>, k: nat): seq<seq<string>>
    requires k <= |attempts|
  {
    if k == 0 then []
    else
      EmittedRows(attempts, k - 1)
      + match attempts[k - 1]
        case Completed(Success(f)) => [Row(f)]
        case _ => []
  }

  lemma {:induction false} EmittedRowsTail(attempts: seq<Attempt>, k: nat)
    requires 1 <= k <= |attempts|
    ensures EmittedRows(attempts, k)
         == (match attempts[0] case Completed(Success(f)) => [Row(f)] case _ => [])
            + EmittedRows(attempts[1..], k - 1)
  {
    if k > 1 {
      EmittedRowsTail(attempts, k - 1);
      assert attempts[1..][k - 2] == attempts[k - 1];
    }
  }

  /** The counter ends one past the last identifier the loop got through: it never skips a value, and
      an interrupt or an escaping error does not advance it. */
  lemma {:induction false} DriveCounter(x: nat, attempts: seq<Attempt>)
    ensures Drive(x, attempts).counter == x + Advances(attempts)
    decreases |attempts|
  {
    if attempts != [] && Proceeds(attempts[0]) {
      DriveCounter(x + 1, attempts[1..]);
    }
  }

  /** The loop is still running exactly when it got through every attempt, stopped when the next one
      is an interrupt, and crashed when the next one raised an error other than `AttributeError`. */
  lemma {:induction false} DriveStatus(x: nat, attempts: seq<Attempt>)
    ensures Drive(x, attempts).status
        == if Advances(attempts) == |attempts| then Running
           else if attempts[Advances(attempts)].Interrupted? then Stopped else Crashed
    decreases |attempts|
  {
    if attempts != [] && Proceeds(attempts[0]) {
      DriveStatus(x + 1, attempts[1..]);
      var k := Advances(attempts[1..]);
      if k < |attempts[1..]| {
        assert attempts[1..][k] == attempts[k + 1];
      }
    }
  }

  /** The rows written are exactly the rows of the records among the attempts the loop got through, in
      order: a skipped identifier writes nothing. */
  lemma {:induction false} DriveRows(x: nat, attempts: seq<Attempt>)
    ensures Drive(x, attempts).rows == EmittedRows(attempts, Advances(attempts))
    decreases |attempts|
  {
    if attempts != [] && Proceeds(attempts[0]) {
      DriveRows(x + 1, attempts[1..]);
      EmittedRowsTail(attempts, Advances(attempts));
    }
  }

  /** A record scraped in a run carries as its identifier the decimal text of the counter its page was
      scraped with. */
  lemma AttemptIds(x: nat, steps: seq<Step>)
    ensures var attempts := Attempts(x, steps);
      forall i :: 0 <= i < |attempts| && attempts[i].Completed? && attempts[i].result.Success? ==>
        AllDigits(attempts[i].result.value.id) && DigitsValue(attempts[i].result.value.id) == x + i
  {
    var attempts := Attempts(x, steps);
    forall i | 0 <= i < |attempts| && attempts[i].Completed? && attempts[i].result.Success?
      ensures AllDigits(attempts[i].result.value.id) && DigitsValue(attempts[i].result.value.id) == x + i
    {
      ScrapeRecord(x + i, steps[i].page);
    }
  }

  /** Every data row has the twelve columns of the header and, as long as the records carry decimal
      identifiers, is not itself the header. */
  lemma {:induction false} EmittedRowsShape(attempts: seq<Attempt>, k: nat)
    requires k <= |attempts|
    requires forall i :: 0 <= i < k && attempts[i].Completed? && attempts[i].result.Success? ==>
      AllDigits(attempts[i].result.value.id)
    ensures forall j :: 0 <= j < |EmittedRows(attempts, k)| ==>
      |EmittedRows(attempts, k)[j]| == |HEADER| && EmittedRows(attempts, k)[j] != HEADER
      && AllDigits(EmittedRows(attempts, k)[j][0])
  {
    if k > 0 {
      EmittedRowsShape(attempts, k - 1);
      var a := attempts[k - 1];
      var rows := EmittedRows(attempts, k - 1);
      if a.Completed? && a.result.Success? {
        var f := a.result.value;
        assert AllDigits(f.id);
        RowIsNotHeader(f);
        assert Row(f)[0] == f.id;
        assert EmittedRows(attempts, k) == rows + [Row(f)];
      } else {
        assert EmittedRows(attempts, k) == rows;
      }
    }
  }

  /** The file holds the header once, first, and after it only the data rows. */
  lemma OutputShape(rows: seq<seq<string>>, output: seq<seq<string>>)
    requires forall j :: 0 <= j < |rows| ==>
      |rows[j]| == |HEADER| && rows[j] != HEADER && AllDigits(rows[j][0])
    requires output == [HEADER] + rows
    ensures |output| >= 1 && output[0] == HEADER
    ensures forall j :: 1 <= j < |output| ==>
      |output[j]| == |HEADER| && output[j] != HEADER && AllDigits(output[j][0])
  {
    assert forall j :: 1 <= j < |output| ==> output[j] == rows[j - 1];
  }

  /** One more attempt writes the row of its record, if it has one, after the rows before it. */
  lemma EmittedRowsStep(attempts: seq<Attempt>, i: nat, a: Attempt)
    requires i < |attempts| && attempts[i] == a
    ensures EmittedRows(attempts, i + 1)
         == EmittedRows(attempts, i) + match a case Completed(Success(f)) => [Row(f)] case _ => []
  {
  }

  /** What the loop body does with one attempt: write the record's row and advance the counter, skip an
      `AttributeError` by advancing the counter, or end the loop at an interrupt or another error. */
  method Handle(ghost attempts: seq<Attempt>, i: nat, a: Attempt, output: seq<seq<string>>, x: nat)
    returns (output': seq<seq<string>>, x': nat, status: Status)
    requires i < |attempts| && attempts[i] == a && i <= Advances(attempts)
    ensures status == if Proceeds(a) then Running else if a.Interrupted? then Stopped else Crashed
    ensures status == Running ==>
      i + 1 <= Advances(attempts) && x' == x + 1
      && output' == output + match a case Completed(Success(f)) => [Row(f)] case _ => []
    ensures status != Running ==> Advances(attempts) == i && x' == x && output' == output
  {
    if a == Interrupted {
      AdvancesAt(attempts, i);
      return output, x, Stopped;
    }
    if a == Completed(Failure(ValueError)) {
      AdvancesAt(attempts, i);
      return output, x, Crashed;
    }
    AdvancesPast(attempts, i);
    match a {
      case Completed(Failure(AttributeError)) =>
        output', x' := output, x + 1;
      case Completed(Success(f)) =>
        output', x' := output + [Row(f)], x + 1;
    }
    status := Running;
  }

  /** What the loop holds when it ends, in terms of the attempts alone, is what `Drive` computes. */
  lemma BatchOutcome(attempts: seq<Attempt>, output: seq<seq<string>>, x: nat, status: Status)
    requires output == [HEADER] + EmittedRows(attempts, Advances(attempts))
    requires x == 1 + Advances(attempts)
    requires status == if Advances(attempts) == |attempts| then Running
                       else if attempts[Advances(attempts)].Interrupted? then Stopped else Crashed
    ensures output == [HEADER] + Drive(1, attempts).rows
    ensures x == Drive(1, attempts).counter
    ensures status == Drive(1, attempts).status
  {
    DriveRows(1, attempts);
    DriveCounter(1, attempts);
    DriveStatus(1, attempts);
  }

  /** The file the loop wrote has the header first and only data rows after it. */
  lemma BatchShape(attempts: seq<Attempt>, output: seq<seq<string>>)
    requires forall i :: 0 <= i < |attempts| && attempts[i].Completed? && attempts[i].result.Success? ==>
      AllDigits(attempts[i].result.value.id)
    requires output == [HEADER] + EmittedRows(attempts, Advances(attempts))
    ensures |output| >= 1 && output[0] == HEADER
    ensures forall j :: 1 <= j < |output| ==>
      |output[j]| == |HEADER| && output[j] != HEADER && AllDigits(output[j][0])
  {
    EmittedRowsShape(attempts, Advances(attempts));
    OutputShape(EmittedRows(attempts, Advances(attempts)), output);
  }

  /** The `__main__` loop: the header first, then one row per successfully scraped identifier, with the
      counter starting at 1; the loop ends at an interrupt, at an error other than `AttributeError`, or
      when the steps run out. */
  method RunBatch(steps: seq<Step>) returns (output: seq<seq<string>>, x: nat, status: Status)
    ensures var attempts := Attempts(1, steps);
      && output == [HEADER] + Drive(1, attempts).rows
      && x == Drive(1, attempts).counter
      && status == Drive(1, attempts).status
    ensures var attempts := Attempts(1, steps);
      && output == [HEADER] + EmittedRows(attempts, Advances(attempts))
      && x == 1 + Advances(attempts)
    ensures |output| >= 1 && output[0] == HEADER
    ensures forall j :: 1 <= j < |output| ==>
      |output[j]| == |HEADER| && output[j] != HEADER && AllDigits(output[j][0])
  {
    ghost var attempts := Attempts(1, steps);
    output := [HEADER];
    x := 1;
    status := Running;
    var i := 0;
    while i < |steps|
      invariant 0 <= i <= Advances(attempts) && x == 1 + i && status == Running
      invariant output == [HEADER] + EmittedRows(attempts, i)
      decreases |steps| - i
    {
      var a := Turn(x, steps[i]);
      AttemptsAt(1, steps, i, x);
      EmittedRowsStep(attempts, i, a);
      output, x, status := Handle(attempts, i, a, output, x);
      if status != Running {
        break;
      }
      i := i + 1;
    }
    if status == Running {
      AdvancesAt(attempts, i);
    }
    AttemptIds(1, steps);
    BatchOutcome(attempts, output, x, status);
    BatchShape(attempts, output);
  }

  // ---------------------------------------------------------------- end-to-end example

  /** Jane Doe's page: no birth date, locality London, three badges with counts 10, 2 and 1. */
  function JanePage(titles: seq<string>): Page
    requires |titles| == 3
  {
    Page(Some("Jane Doe"), None, Some("London"), None, None, None, None,
         [Badge(titles[0], Some("10")), Badge(titles[1], Some("2")), Badge(titles[2], Some("1"))],
         Some("Jan / 02 / 2015"))
  }

  lemma JaneLastFight()
    ensures LastFightField(Some("Jan / 02 / 2015")) == Success("2015-01-02T00:00:00")
  {
    LastFightParses();
    LastFightRenders();
  }

  /** Jane Doe's record once the three counts are known. */
  lemma JaneRecord(titles: seq<string>, wins: Count, losses: Count, draws: Count)
    requires |titles| == 3
    requires TallyOf(JanePage(titles).results) == Success(Tally(wins, losses, draws))
    ensures Scrape(1, JanePage(titles))
         == Success(Fighter("1", "Jane Doe", None, Some("London"), None, None, None, None,
                            wins, losses, draws, "2015-01-02T00:00:00"))
  {
    JaneLastFight();
    assert Decimal(1) == "1";
  }

  /** The count a key gets from three badges: the last of them labelled with it, or the seeded zero. */
  lemma CountForThree(a: Badge, b: Badge, c: Badge, key: string)
    requires a.count.Some? && b.count.Some? && c.count.Some?
    ensures AllCounted([a, b, c])
    ensures CountFor([a, b, c], key)
         == if Lower(c.title) == key then Scraped(c.count.value)
            else if Lower(b.title) == key then Scraped(b.count.value)
            else if Lower(a.title) == key then Scraped(a.count.value)
            else DefaultZero
  {
    assert [a, b, c] == [a, b] + [c] && [a, b] == [a] + [b] && [a] == [] + [a];
    CountForStep([a, b], c, key);
    CountForStep([a], b, key);
    CountForStep([], a, key);
  }

  lemma PluralTitlesLowered()
    ensures Lower("Wins") == "wins" && Lower("Losses") == "losses" && Lower("Draws") == "draws"
  {
  }

  lemma SingularTitlesLowered()
    ensures Lower("Win") == "win" && Lower("Loss") == "loss" && Lower("Draw") == "draw"
  {
  }

  /** A badge label written with the dotted capital I is read under the key "wins", as Python 2 lower-cases
      U+0130 to a plain `i`. */
  lemma DottedCapitalILowers()
    ensures Lower("W\U{0130}NS") == "wins"
  {
  }

  lemma JanePluralTally()
    ensures TallyOf(JanePage(["Wins", "Losses", "Draws"]).results)
         == Success(Tally(Scraped("10"), Scraped("2"), Scraped("1")))
  {
    var a, b, c := Badge("Wins", Some("10")), Badge("Losses", Some("2")), Badge("Draws", Some("1"));
    assert JanePage(["Wins", "Losses", "Draws"]).results == [a, b, c];
    PluralTitlesLowered();
    CountForThree(a, b, c, "wins");
    CountForThree(a, b, c, "losses");
    CountForThree(a, b, c, "draws");
  }

  lemma JaneSingularTally()
    ensures TallyOf(JanePage(["Win", "Loss", "Draw"]).results) == Success(Tally(DefaultZero, DefaultZero, DefaultZero))
  {
    var a, b, c := Badge("Win", Some("10")), Badge("Loss", Some("2")), Badge("Draw", Some("1"));
    assert JanePage(["Win", "Loss", "Draw"]).results == [a, b, c];
    SingularTitlesLowered();
    assert |"win"| == 3 && |"loss"| == 4 && |"draw"| == 4;
    CountForThree(a, b, c, "wins");
    CountForThree(a, b, c, "losses");
    CountForThree(a, b, c, "draws");
  }

  /** Badges titled "Wins", "Losses" and "Draws" fill the three counts of the row. */
  lemma JaneDoePluralTitles()
    ensures Scrape(1, JanePage(["Wins", "Losses", "Draws"])).Success?
    ensures Row(Scrape(1, JanePage(["Wins", "Losses", "Draws"])).value)
         == ["1", "Jane Doe", "None", "None", "None", "London", "None", "None", "10", "2", "1",
             "2015-01-02T00:00:00"]
  {
    JanePluralTally();
    JaneRecord(["Wins", "Losses", "Draws"], Scraped("10"), Scraped("2"), Scraped("1"));
  }

  /** Badges titled "Win", "Loss" and "Draw" lower-case to keys the table ignores: all three counts stay 0. */
  lemma JaneDoeSingularTitles()
    ensures Scrape(1, JanePage(["Win", "Loss", "Draw"])).Success?
    ensures Row(Scrape(1, JanePage(["Win", "Loss", "Draw"])).value)
         == ["1", "Jane Doe", "None", "None", "None", "London", "None", "None", "0", "0", "0",
             "2015-01-02T00:00:00"]
  {
    JaneSingularTally();
    JaneRecord(["Win", "Loss", "Draw"], DefaultZero, DefaultZero, DefaultZero);
  }
}
