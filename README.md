# sherdog-fighter-scraper, modelled in Dafny

`scraper.py` lists fighter profiles from sherdog.com: for every numeric identifier from 1 upwards it
fetches the profile page, reads the fighter's fields out of the HTML with BeautifulSoup
(`Scraper.scrape_fighter`), and writes one CSV row per fighter under a fixed twelve-column header
until the operator presses Ctrl-C.

This project models the part of that program that decides what ends up in the file:

- `wrappers.dfy` holds `Option` and `Result`, where the failure case of `Result` carries the exception
  that `scrape_fighter` raises.
- `text.dfy` holds the Python string operations the scraper uses:
  - `lower()` as far as it can produce an ASCII letter
  - `lstrip()`/`rstrip()` with Python 2's unicode whitespace
  - `replace(unit, '')`
  - `str()` of a positive counter and zero-padded digits
- `dates.dfy` holds the two date conversions: `strptime(s, '%Y-%m-%d')` and
  `strptime(s, '%b / %d / %Y')`, each followed by `isoformat()`. It includes the Gregorian calendar
  check that `datetime` applies.
- `scraper.dfy` covers `isNone` and `scrape_fighter` once the page has been fetched:
  - A `Page` holds the text that each BeautifulSoup lookup reaches, or `None` where an element of the
    lookup chain is missing.
  - `Scrape` is the record function and `ScrapeFighter` the statement-by-statement method proved equal
    to it.
  - The win/loss/draw table is the imperative `OverlayResults` loop over the result badges, proved
    against `TallyOf`.
- `driver.dfy` covers the `__main__` block:
  - the header
  - the `str()`-coerced row in header order
  - the `while True` loop over the counter `x`, as the state machine `Drive` over per-identifier
    `Attempt`s and the imperative `RunBatch`, whose body is `Turn` (the `scrape_fighter` call) followed
    by `Handle` (the `except`/`else` branches)

The outcome of a page:

- A page gives a record (`Success`).
- A page raises `AttributeError`: the name, the last-fight line or a badge's count sibling is missing.
  The driver skips the identifier.
- A page raises `ValueError`: a date string that `strptime` rejects. Nothing catches it, so the run
  ends with status `Crashed`.

The lookups run in source order, so the first error is the one that escapes:

1. name
2. birth date
3. badges
4. last fight

The code stores each count under the badge's lower-cased label and reads back only the plural keys
`wins`, `losses` and `draws`:
- Badges labelled "Win", "Loss" and "Draw" leave all three counts at the seeded 0
  (`Driver.JaneDoeSingularTitles`).
- Badges labelled "Wins", "Losses" and "Draws" give their siblings' counts (`Driver.JaneDoePluralTitles`).
- A badge without a count sibling raises `AttributeError`.

## Model

| member | source | states |
|---|---|---|
| Text.Lower | scraper.py:117 | `lower()` keeps the length and lowers character by character: each ASCII capital, the dotted capital I (to `i`) and the Kelvin sign (to `k`), which are all the characters whose lower case is an ASCII letter |
| Driver.DottedCapitalILowers | scraper.py:117 | a label spelled with the dotted capital I lower-cases to the key "wins" |
| Text.TrimLeft | scraper.py:95 | `lstrip()` returns a suffix of its input, and everything it removed is whitespace; the result is empty or does not start with whitespace |
| Text.TrimRight | scraper.py:95 | `rstrip()` returns a prefix of its input, and everything it removed is whitespace; the result is empty or does not end with whitespace |
| Text.StripPadded | scraper.py:95 | `lstrip().rstrip()` of text surrounded by any whitespace gives back exactly the text, provided the text neither starts nor ends with whitespace |
| Text.Removed | scraper.py:95 | `replace(unit, '')` never lengthens its input and leaves a string with no occurrence of the unit unchanged |
| Text.RemovedFirst | scraper.py:95 | `replace(unit, '')` works left to right: the text before the first occurrence of the unit is kept, that occurrence is deleted, and the rest is processed the same way |
| Text.RemovedUnitSuffix | scraper.py:95 | deleting the unit from a number followed by its unit gives back the number when the number cannot start an occurrence |
| Text.DigitsValue | scraper.py:78 | the value of an n-digit string is below 10^n |
| Text.PaddedValue | scraper.py:79 | the zero-padded digits of a number that fits the width spell that number |
| Text.ValuePadded | scraper.py:78-79 | a digit string is the zero-padded rendering of its value, so parsing and re-rendering the digits is the identity |
| Text.Decimal | scraper.py:60 | `str(fighter_id)` is a non-empty digit string whose value is the counter, with a leading '0' only for zero |
| Dates.DaysInMonth | scraper.py:78 | a month has 28 to 31 days, and 29 exactly in February of a Gregorian leap year |
| Dates.IsoFormat | scraper.py:79 | `isoformat()` of a parsed date is 19 characters ending in the midnight time `T00:00:00` |
| Dates.ParseIsoDate | scraper.py:78 | `strptime(s, '%Y-%m-%d')` only gives dates that `datetime` accepts |
| Dates.IsoDateRoundTrip | scraper.py:78-79 | parsing the `%Y-%m-%d` rendering of any valid date gives back that date |
| Dates.IsoDateCanonical | scraper.py:78-79 | a birth date that parses comes back digit for digit, with `T00:00:00` appended by `isoformat()` |
| Dates.IsoDateAccepts | scraper.py:78 | the birth dates that parse are exactly the renderings of valid dates |
| Dates.MonthFrom | scraper.py:120 | the month search finds the first name in its table that matches the key, and finds none only when no name matches |
| Dates.MonthNumber | scraper.py:120 | `%b` gives month m exactly for a case-insensitive match with the m-th abbreviation, and rejects a string that matches none |
| Dates.MonthNumberOfAbbreviation | scraper.py:120 | each of the twelve abbreviations is read as its own month number |
| Dates.ParseLastFight | scraper.py:120 | `strptime(s, '%b / %d / %Y')` only gives dates that `datetime` accepts |
| Dates.LastFightRoundTrip | scraper.py:120 | parsing the `%b / %d / %Y` rendering of any valid date gives back that date |
| Dates.LastFightShape | scraper.py:120 | a last-fight string that parses has the slashes and digit runs in place, and is read as year, month and day from those positions |
| Dates.LastFightCanonical | scraper.py:120 | a last-fight string that parses is the canonical rendering of its date, up to the case of the month |
| Dates.LastFightIso | scraper.py:120-121 | the ISO rendering of a last fight keeps the year and day digits of the input and replaces the month abbreviation by its two-digit number |
| Dates.BirthDateParses | scraper.py:78 | "1990-05-12" reads as the 12th of May 1990 |
| Dates.BirthDateRenders | scraper.py:79 | the 12th of May 1990 renders as "1990-05-12T00:00:00" |
| Dates.LastFightParses | scraper.py:120 | "Jan / 02 / 2015" reads as the 2nd of January 2015 |
| Dates.LastFightRenders | scraper.py:121 | the 2nd of January 2015 renders as "2015-01-02T00:00:00" |
| Dates.LeapDayExamples | scraper.py:78 | the 29th of February exists in 2016 and 2000 but not in 2015 or 1900; April has no 31st; year 0 is rejected |
| Scraper.IsNone | scraper.py:44-52 | `isNone(x)` holds exactly when `x` is `None` |
| Scraper.CountForStep | scraper.py:116-117 | one more badge either overwrites the entry of its lower-cased label or leaves that entry as it was |
| Scraper.CountForDefault | scraper.py:111-117 | a count keeps its seeded 0 exactly when no badge's lower-cased label is its key |
| Scraper.CountForLast | scraper.py:116-117 | when several badges carry the same label, the last one in document order sets the count |
| Scraper.CountForWitness | scraper.py:116-117 | a scraped count is the sibling text of a badge with that label that no later badge overrides |
| Scraper.CountForIgnores | scraper.py:116-117 | a badge with another label does not affect a count, wherever it stands |
| Scraper.TallyIgnoresOtherLabels | scraper.py:111-117 | a badge whose label is none of wins, losses and draws leaves all three counts unchanged |
| Scraper.OverlayResults | scraper.py:111-117 | the `wld` loop returns the three counts `TallyOf` defines, or `AttributeError` at the first badge without a count sibling |
| Scraper.BirthDateField | scraper.py:70-79 | the birth date is `None` exactly when the element is missing or reads "N/A"; it raises `ValueError` exactly when `strptime` rejects the text; otherwise it is the text followed by `T00:00:00` |
| Scraper.LastFightField | scraper.py:119-121 | a missing last-fight line raises `AttributeError`; a text `strptime` rejects raises `ValueError`; otherwise the result is year-month-day built from the input's digits |
| Scraper.Measurement | scraper.py:93-103 | height and weight are `None` exactly when their element is missing |
| Scraper.MeasurementOfPadded | scraper.py:94-103 | whitespace around a number followed by its unit leaves just the number |
| Scraper.HeightExample | scraper.py:95 | " 180 cm " gives height "180" |
| Scraper.WeightExample | scraper.py:101 | " 84 kg " gives weight "84" |
| Scraper.ScrapeOutcome | scraper.py:55-138 | which pages give a record, which raise `AttributeError` and which raise `ValueError`, both directions of each, with the lookups in source order |
| Scraper.ScrapeRecord | scraper.py:60-137 | a record carries the counter as decimal digits, the page's name, the birth date or `None` as the derivation dictates, and a 19-character ISO last fight |
| Scraper.ScrapeCounts | scraper.py:111-135 | each count in a record stays 0 exactly when no badge has its label, and is otherwise the count text of the last badge so labelled |
| Scraper.ScrapeFighter | scraper.py:55-138 | the statement-by-statement `scrape_fighter` returns exactly what `Scrape` defines, errors included |
| Driver.Row | scraper.py:197-211 | a data row has as many columns as the header |
| Driver.RowFollowsHeader | scraper.py:181-211 | each column of a data row holds the `str()` of the field its header title names, with weight before height as in the header |
| Driver.RowIsNotHeader | scraper.py:181-211 | a data row with a decimal identifier is never the header row |
| Driver.Advances | scraper.py:184-196 | the loop gets through the attempts before the first interrupt or escaping error, and it stops at that attempt |
| Driver.DriveCounter | scraper.py:184-196 | the counter ends one past the last identifier the loop got through: it never skips, and an interrupt or an escaping error does not advance it |
| Driver.DriveStatus | scraper.py:185-196 | the loop is still running exactly when it got through every attempt; it stopped at an interrupt, and crashed at an error other than `AttributeError` |
| Driver.DriveRows | scraper.py:193-212 | the rows written are the rows of the records among the attempts the loop got through, in order; a skipped identifier writes nothing |
| Driver.AttemptIds | scraper.py:184-188 | a record scraped in a run carries as identifier the decimal digits of the counter it was scraped with |
| Driver.EmittedRowsShape | scraper.py:181-212 | every data row has the header's twelve columns, its first column is all digits, and it is never the header |
| Driver.RunBatch | scraper.py:181-212 | the loop writes the header and then exactly `Drive`'s rows, ending with `Drive`'s counter and status; the header comes first and only once, and every later row has twelve columns and a decimal identifier |
| Driver.BatchShape | scraper.py:181-212 | after the header, every row the loop wrote has the header's twelve columns, an all-digit first column, and is not the header |
| Driver.Handle | scraper.py:186-212 | one turn of the loop body: a record appends its row and advances the counter, an `AttributeError` only advances the counter, an interrupt stops the loop and any other error crashes it, without advancing the counter; the turn continues exactly when the loop gets past the attempt |
| Driver.BatchOutcome | scraper.py:183-212 | the loop's final output, counter and status, described by how many attempts the loop got through, are exactly what `Drive` computes |
| Driver.CountForThree | scraper.py:116-117 | of three badges, the last one labelled with a key sets its count, otherwise the 0 stays |
| Driver.JaneLastFight | scraper.py:119-121 | the last fight "Jan / 02 / 2015" becomes "2015-01-02T00:00:00" |
| Driver.JaneRecord | scraper.py:55-138 | Jane Doe's page with no birth date gives the record with identifier "1", that name and locality, `None` elsewhere and the ISO last fight |
| Driver.JanePluralTally | scraper.py:111-117 | badges "Wins", "Losses" and "Draws" with siblings 10, 2 and 1 give those counts |
| Driver.JaneSingularTally | scraper.py:111-117 | badges "Win", "Loss" and "Draw" leave all three counts at the seeded 0 |
| Driver.JaneDoePluralTitles | scraper.py:111-138 | the page with plural titles gives the row "1", "Jane Doe", "None" three times, "London", "None" twice, "10", "2", "1" and the ISO last fight |
| Driver.JaneDoeSingularTitles | scraper.py:111-138 | the page with singular titles gives the same row with counts "0", "0", "0" |

## Left out

- Fetching (`fetch_url`, `requests.get`, scraper.py:37-42) is network I/O. Its result is the `Page`
  parameter of `Scrape` and the `Step`s of `RunBatch`.
- BeautifulSoup parsing and navigation (scraper.py:64-67, 71, 83, 89, 95, 101, 107, 115, 117, 119) is
  not modelled beyond what each lookup yields. A `Page` holds the first (for height and weight, the
  last) text of each element, or `None` when a link of the chain is missing. Also not modelled:
  - the `IndexError` of an element with no contents
  - a tag standing where text is expected
  - the fact that `findNextSibling` skips non-`span` nodes
- `str()` of a BeautifulSoup text node is taken to be that text.
- `Scraper.IsNone` is not called by `scrape_fighter`: the modelled code never uses it.
- Dates.ParseIsoDate: weaker than `strptime`. Python also accepts a month or day without its leading
  zero (as in "1990-5-12") and a day padded with a space. The model accepts only the canonical
  zero-padded form and treats every other string as the `ValueError`. Leading or trailing whitespace
  is a `ValueError` in both.
- Dates.ParseLastFight: weaker than `strptime` in the same way. Python also accepts a day without its
  leading zero or padded with a space, and any run of whitespace where the format has a space around
  the slashes. The model accepts only "Mon / DD / YYYY" with single spaces and a two-digit day. The
  month is matched without regard to case, as `%b` does in the C locale.
- Text.Lower: characters whose lower case is not an ASCII letter are kept unchanged, whereas Python
  maps some of them to other non-ASCII letters. Only the comparison with the ASCII keys `wins`,
  `losses` and `draws` and the case-insensitive `%b` month match in `Dates.MonthNumber` use the
  result. Python's case-insensitive match there folds only ASCII letters, so the dotted capital I and
  the Kelvin sign fold differently in it; no month abbreviation contains `i` or `k`, so both
  comparisons come out the same.
- The `UnicodeEncodeError` of `str(c)` at scraper.py:211 is not modelled. Height and weight are plain
  unicode strings after `lstrip()`, so a non-ASCII character left in them, such as a non-breaking
  space before the unit, raises outside the `try` and ends the run without writing that row. The
  model writes the row.
- The error of the `print` at scraper.py:190 is not modelled. A name that the console's encoding cannot
  represent raises there, before the row is written. The `try` catches only `KeyboardInterrupt` and
  `AttributeError`, so the error ends the run. The model writes the row.
- Writing the CSV file (`UnicodeWriter`, scraper.py:141-172; quoting, UTF-8 encoding,
  scraper.py:178-179, 182, 212) is file I/O. The model produces the rows as sequences of strings,
  header first.
- The console output is not modelled: the `print` of the zero-padded identifier and name
  (scraper.py:190) and the final "Exiting" and `close()` (scraper.py:214-215).
- A `KeyboardInterrupt` is modelled only as arriving during a lookup, before a row is written. An
  interrupt in the middle of `csv_file.writerow` is not modelled.
- The run is infinite in the source. The model runs over a finite sequence of steps, and status
  `Running` means the steps ran out while the loop would go on.
