# Meralco rate scraper: a Dafny model of its extraction rules

The service answers `GET /rate` with the current Meralco electricity rate in PHP per kWh.
It finds the latest rates advisory on the company's news-and-advisories listing page,
reads the rate and the published date off that advisory page, and assembles a JSON reply.
A companion script lists every rate advisory title on the listing page, with the month and
year it refers to.

This project models the decision logic of those steps. It leaves out the fetching and the
HTML parsing: a parsed page is plain data.

- **Site** (`Site.dfy`): the site origin and the normalisation that makes a relative href
  absolute. Both scripts use it.
- **Links** (`Links.dfy`, `get_latest_rates_link`): the listing page is its anchors in
  document order, each an `(href, text)` pair. The scan keeps an anchor when its href holds
  `/news-and-advisories/` and `"rates"` occurs in the lower-cased href or text. It collects
  the normalised hrefs and answers the first one, or nothing.
- **Patterns** (`Patterns.dfy`): each of the eight fixed regular expressions has its own
  hand-written matcher. There are five rate patterns and three free-text date patterns.
  Each matcher is deterministic at a start position. `Search` is `re.search`: it returns
  the capture of the leftmost match. `FirstMatch` is the loop over a pattern list that
  stops at the first pattern that matches anywhere.
- **Extract** (`Extract.dfy`, `extract_rate_and_date`): an advisory page is its flattened
  text, its first `article:published_time` meta tag and its first `<time>` tag. The rate is
  kept as the captured decimal token (`11.5750`), never as a float. The date comes from the
  text patterns first, then the meta tag, then the time tag.
- **Api** (`Api.dfy`, `get_current_rate`): the handler is a method of the listing fetch
  outcome and a function from url to page fetch outcome. It reproduces the handler's
  exception mapping as written.
- **Scrape** (`Scrape.dfy`, `test_scrape.py`): the loop over `<h4>` titles that emits one
  record per rate advisory title. Month inference follows list order, January to December.
  The year is the first `20dd` token.
- `Text.dfy` holds the character classes, lower-casing, substring tests and greedy runs.
  `Wrappers.dfy` holds `Option`.

The model follows the code as written:

- The link filter looks for `"rates"` in the lower-cased href or link text (main.py:46).
- `get_latest_rates_link` returns only the first candidate (main.py:55-56).
- Neither script deduplicates by url or by month and year (main.py:51-53, test_scrape.py:49-54).
- A missing advisory answers 500, because the 404 raised at main.py:128 is caught by the
  generic handler at main.py:148-149.
- The rate goes out as a float (main.py:81), so `11.5000` becomes `11.5`. The model keeps the
  captured token, as "## Left out" says.

## Model

| member | source | states |
|---|---|---|
| `Site.Normalize` | main.py:48-49 | The url starts with "http", and the original href survives as its tail. An href that already starts with "http" is kept unchanged. test_scrape.py:32-34 applies the same rule with the same origin. |
| `Links.IsRatesLink` | main.py:45-46 | No contract beyond its body. An anchor qualifies when its href contains `/news-and-advisories/` (case-sensitive) and "rates" occurs in the lower-cased href or the lower-cased link text. |
| `Links.RateLinksAppend` | main.py:41-53 | Scanning one more anchor appends its normalised href exactly when it qualifies. |
| `Links.RateLinksAbsolute` | main.py:48-53 | Every collected link starts with "http". |
| `Links.LatestIsFirstRatesLink` | main.py:40-58 | The answer is absent iff no anchor qualifies. Otherwise it is the normalised href of the first qualifying anchor in document order, and it starts with "http". |
| `Links.GetLatestRatesLink` | main.py:34-58 | The loop that appends to `rate_links` ends with the list's first entry, or None for an empty list. |
| `Patterns.RateTailMatch` | main.py:75 | No contract beyond its body. It is the stand-alone reading of `(\d+\.\d{4})\s+per\s+kWh` at a position: digits, a dot, four digits, whitespace, "per", whitespace, "kWh", with the letters in either case. The regex is split at the dot, at "per" and at "kWh". |
| `Patterns.RateTailAt` | main.py:75 | No contract beyond its body. It matches the rate tail `(\d+\.\d{4})\s+per\s+kWh` that all five rate patterns share, taking each greedy run maximal, and captures the decimal token. |
| `Patterns.RateTailAtComplete` | main.py:75 | Every split that matches the regex at a position is the one the matcher takes, with the same capture. No match Python would find is lost. |
| `Patterns.RateTailAtSound` | main.py:75 | The matcher reports only genuine matches of the regex, and its capture is the group of such a match. |
| `Patterns.PesoAt` | main.py:72 | No contract beyond its body. It matches `P(\d+\.\d{4})\s+per\s+kWh`: a "p" or "P", then the rate tail. |
| `Patterns.RaisedToAt` | main.py:71 | No contract beyond its body. It matches `to\s+P…`: "to" in either case, a maximal whitespace run, then the `P…` pattern. |
| `Patterns.OverallRateAt` | main.py:73 | No contract beyond its body. It matches `overall\s+rate[^P]*P…`: after "overall", whitespace and "rate", it skips to the first "p" or "P" and takes the `P…` pattern there. Under IGNORECASE `[^P]` excludes both cases. |
| `Patterns.OverallRateMatch` | main.py:73 | No contract beyond its body. It is the stand-alone reading of the whole third rate pattern: the prefix up to a "p" or "P" that has no p/P before it, then the rate-tail split. |
| `Patterns.OverallRateAtPrefix` | main.py:73 | Once the prefix matches up to the first "p", the matcher's answer is the rate tail right after that "p". |
| `Patterns.OverallRatePrefixOf` | main.py:73 | Where the matcher succeeds, its prefix matched, with "rate" followed by a p-free run up to a "p". |
| `Patterns.OverallRateAtComplete` | main.py:73 | Every way the third rate pattern matches at a position is the matcher's answer, with the same capture. The greedy `[^P]*` loses no match. |
| `Patterns.OverallRateAtSound` | main.py:73 | The matcher reports only genuine matches of the third rate pattern, and its capture is that match's group. |
| `Patterns.PhpAt` | main.py:74 | No contract beyond its body. It matches `(?:Php\|PHP)\s*(\d+\.\d{4})\s+per\s+kWh`: "php" in any case (IGNORECASE makes the two alternatives one), optional whitespace, then the rate tail. |
| `Patterns.LabelledAt` | main.py:88 | No contract beyond its body. It matches `(?:Published\|Date\|Posted)[\s:]+(…)`: one of the three labels (at most one can start at a position), a non-empty run of whitespace or colons, then a month-day-year date, which is captured. |
| `Patterns.DayMonthYearAt` | main.py:89 | It matches `(\d{1,2}\s+\w+\s+\d{4})`: one or two digits, whitespace, a word, whitespace, four digits. A run of three or more digits fails at that position, because the regex then needs whitespace after at most two digits. The capture is never empty. |
| `Patterns.MonthDayYearAt` | main.py:90 | It matches `(\w+\s+\d{1,2},?\s+\d{4})`: a word, whitespace, one or two digits, an optional comma, whitespace, four digits. The capture is never empty. |
| `Patterns.At` | main.py:70-91 | No contract beyond its body. It sends each of the eight patterns to its matcher. |
| `Patterns.FirstPresentFrom` | main.py:78-82 | First match wins: the index returned holds a present entry, all earlier entries are absent, and it is absent iff every entry is. |
| `Patterns.SearchIsLeftmost` | main.py:79 | `re.search` returns the capture of the match at the leftmost start position. It is absent iff no position matches. |
| `Patterns.SearchFindsMatch` | main.py:79 | A match at any position makes the search succeed. |
| `Patterns.FirstMatchIsFirstPattern` | main.py:78-82 | The patterns are tried in list order. The kept capture is the first matching pattern's leftmost capture, and every earlier pattern matches nowhere. |
| `Patterns.LaterPatternsNotConsulted` | main.py:78-82 | Once a pattern has matched, appending more patterns changes neither the capture nor which pattern supplied it. |
| `Patterns.RateTailIsToken` | main.py:70-75 | The rate tail captures one or more digits, a dot and exactly four digits, read from the text at the match position. |
| `Patterns.RaisedToContainsPeso` | main.py:71-72 | A `to … P… per kWh` match contains a `P… per kWh` match with the same capture. |
| `Patterns.OverallRateContainsPeso` | main.py:72-73 | An `overall rate … P… per kWh` match contains a `P… per kWh` match with the same capture. |
| `Patterns.RateMatchContainsBare` | main.py:71-75 | Every match of any of the five rate patterns contains a match of the bare `digits.dddd per kWh` pattern with the same capture. |
| `Patterns.SearchContainsBare` | main.py:71-79 | Whatever a rate pattern's search captures, the bare pattern also matches somewhere with that capture. |
| `Patterns.RateFoundIffBareMatches` | main.py:69-82 | A rate is found iff the loosest pattern matches somewhere in the text. |
| `Patterns.RateIsToken` | main.py:70-81 | The kept rate is a `digits.dddd` token. It occurs in the text followed by whitespace, "per", whitespace and "kWh", case-insensitively. |
| `Patterns.OverallRateImpliesPeso` | main.py:72-73 | Wherever the overall-rate pattern matches, the plain `P…` pattern matches too. |
| `Patterns.OverallRateNeverWins` | main.py:70-82 | The overall-rate pattern (third in the list) never supplies the rate. |
| `Patterns.LabelledContainsMonthDayYear` | main.py:88-90 | A `Published/Date/Posted` date's capture is itself a match of the month-day-year pattern. |
| `Patterns.TextDateFoundIff` | main.py:85-97 | The text yields a date iff the day-month-year or month-day-year pattern matches. A date found in the text is never empty. |
| `Extract.PublishedDateOf` | main.py:85-108 | No contract beyond its body. A truthy text date wins. Otherwise a present meta tag gives its `content`, possibly None. Otherwise the time tag gives `datetime`, or its text when `datetime` is missing or empty. Otherwise the text search's result stands. Its properties are proved by the three lemmas below. |
| `Extract.TextDateWins` | main.py:93-100 | A date found in the text is the published date, and then the meta and time tags are never consulted. |
| `Extract.MetaBeforeTimeTag` | main.py:100-108 | With no date in the text, a present meta tag supplies its `content`, possibly None, whatever the time tag holds. |
| `Extract.PublishedDateAbsent` | main.py:85-108 | The date is None iff neither unlabelled date pattern matches and either the meta tag has no `content` or both tags are missing. |
| `Extract.ExtractRateAndDate` | main.py:60-110 | The two loops with `break` keep the first pattern's capture, then the meta-tag and time-tag fallbacks apply. A `<time>` tag yields its `datetime` attribute, or its text when that attribute is missing or empty. |
| `Api.ExceptStatus` | main.py:146-149 | As written, a request exception maps to 503 and every other exception maps to 500. That includes the handler's own 404 and 500 `HTTPException`s. |
| `Api.IntendedExceptStatus` | main.py:127-132 | The evidently intended mapping: an `HTTPException` keeps its own status, and a request exception is 503. |
| `Api.IntendedNotFoundIs404` | main.py:127-128 | The missing-advisory exception answers 404 under the intended mapping, but 500 as written. |
| `Api.GetCurrentRate` | main.py:123-149 | Every failure is 500 or 503, never 404. The reply is 503 iff a fetch failed. It is a success iff an advisory was found, fetched and a rate extracted, which holds iff the bare rate pattern matches its text. A success body has exactly `rate`, `unit`, `source`, plus `published` when the date is non-empty. `rate` is the token, `unit` is "PHP/kWh", and `source` is the advisory url, which starts with "http". |
| `Scrape.IsRateTitle` | test_scrape.py:26-31 | No contract beyond its body. A heading qualifies when "rate" occurs in its lower-cased text, it has a parent div, and that div's first href-bearing link contains `/news-and-advisories/`. |
| `Scrape.MonthIsFirstInListOrder` | test_scrape.py:37-43 | The month is the capitalised first name in January-to-December order that occurs in the lower-cased title or url. It is None iff no month name occurs in either. |
| `Scrape.JanuaryComesFirst` | test_scrape.py:13-14 | A title containing "january" yields "January", even when "december" appears before it. |
| `Scrape.InferMonth` | test_scrape.py:40-43 | The loop over the month names with `break` keeps exactly that month. |
| `Scrape.FirstYear` | test_scrape.py:45-47 | No contract beyond its body. It gives the value of the first position in title + href where `20\d{2}` matches. `Scrape.YearIsFirstToken` states its properties. |
| `Scrape.YearIsFirstToken` | test_scrape.py:45-47 | The year is the value of the leftmost `20dd` token in title + url, so it lies in 2000..2099. It is None iff there is no such token. |
| `Scrape.RateLinksOfConcat` | test_scrape.py:20-54 | The records for two runs of titles are the records of the first run followed by those of the second, so document order is kept. |
| `Scrape.NoDeduplication` | test_scrape.py:49-54 | Listing the same titles twice lists every record twice. Nothing is deduplicated by url or by month and year. |
| `Scrape.RecordsAreAbsolute` | test_scrape.py:26-54 | Every record's url starts with "http". Every record comes from a qualifying title, and its `title` is that title's text. |
| `Scrape.ScrapeRateLinks` | test_scrape.py:20-54 | The loop over the `<h4>` titles appends exactly one record per qualifying title, in order. |

## Left out

- HTTP fetching (`requests.get`, the 10-second timeouts, `raise_for_status`): a fetch is an input that has either failed or produced the parsed page.
- HTML parsing (BeautifulSoup `find_all`, `get_text`, `find_parent`, `find`): anchors, headings, flattened text, the meta tag and the time tag are inputs.
- FastAPI construction, CORS middleware, the static mount, the favicon route, the root metadata endpoint and uvicorn startup: framework plumbing with no logic.
- The `last_updated` timestamp: it reads the clock.
- The `float(...)` conversion of the rate: the model keeps the exact captured token, and the reply's `rate` is that token.
- The `detail` strings of the error replies: only the status codes are modelled.
- Unicode beyond ASCII for `\d`, `\w`, `str.lower()` and IGNORECASE folding: these are modelled on ASCII digits and letters. `\s` follows `str.isspace()` in full.
- The `print` output of test_scrape.py, and the diagnostic scripts deep_search.py and check_filters.py, which only fetch and print.

## Findings

| source | as written | input that shows it | evidently intended | confidence | as-written member | corrected member |
|---|---|---|---|---|---|---|
| main.py:125-149 | The `HTTPException(404)` raised at line 128 is inside the `try`. The generic `except Exception` catches it and re-raises it as 500. | A listing page that fetches fine but has no anchor whose href holds `/news-and-advisories/` together with "rates" | Answer 404 "No rates advisory found" | high; not executed | `Api.ExceptStatus` (its 404 case is shown by `Api.IntendedNotFoundIs404`) | `Api.IntendedExceptStatus` |

`Api.GetCurrentRate` keeps the as-written mapping, because the model describes what the service answers.
