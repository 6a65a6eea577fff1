# news_parser in Dafny

This project models the news crawler in `news_parser.py`. The crawler does three things:

- `get_url_list` lists one mk.ru news-listing address per (year, month, day) cell, from 2012 up to today.
- `get_news` fetches one listing page, making up to five attempts. It then reads `(date, title)` pairs out of the page in two passes.
- `news_parse` runs `get_news` over a list of URLs in order. It appends each pair to a file as a `date;title` line and pauses from time to time.

Layout:

| file | module | models |
|---|---|---|
| `wrappers.dfy` | `Wrappers` | `Option` and `Result` |
| `text.dfy` | `Text` | Python's substring test `sub in s`, `str(n)` and `int(s)` on naturals, and splitting at the first separator (the reader side of the file format) |
| `url_list.dfy` | `UrlList` | `get_url_list` |
| `extractor.dfy` | `Extractor` | `get_news` |
| `batch_writer.dfy` | `BatchWriter` | `news_parse`. The output file is a class, `OutputFile`, whose content only grows |

How the model is built:

- **Proved against specification functions.** Each method that loops in the source is a Dafny method with loop invariants. Its postcondition ties the result to a specification function:
  - `UrlPrefix` for the URL walk;
  - `Failures`, `HeadlineIndices`, `DateAfter` and `Extract` for `get_news`;
  - `TypedRows`, `Outcome`, `Written` and `Pauses` for the writer.
- **Lemmas about those functions** state what the script does:
  - which dates are listed, in which order, impossible dates included;
  - that every headline gets the page's last date header;
  - how a run ends, and what the file then holds;
  - when the pauses fall;
  - that reading the file back recovers the rows.

Parameters stand in for the outside world:

- The wall clock is a `Date` parameter, `now`.
- `requests.get` is a script of outcomes, one per call: it raises, or it responds with a parsed page.
- A parsed page is its sequence of elements in document order. Each element carries its XPath, its `class` attribute and its text.

Modelling choices:

- **Exhausted retries.** When every attempt raises, `page` is never bound and the script fails at line 22. The model returns `Err(PageUnbound)`, and `news_parse` stops there with `Aborted(k, FetchFailed)`.
- **Pause counter as written.** The code adds `url_count` to `total_count` after every URL, so `total_count` is 1 + 2 + ... + k after k URLs. The pause test checks that sum, not the URL count. The model keeps this. With a period of 3 and seven URLs, the script sleeps four times, after URLs 2, 3, 5 and 6 (lemma `PacingExample`). A reading in which it sleeps after every third URL does not match the code.
- **Last date wins.** Dates are collected in the first pass and titles in the second, so every record of a page carries the `date` value left at the END of the first pass. That is the text of the page's last day header, or `'2012/1/2/'` when the page has none. The model keeps this too (`LastDateWins`, `FallbackDateUsed`).

## Model

| member | source | states |
|---|---|---|
| Text.Contains | news_parser.py:33-35 | Python's `sub in s` on strings: true when `sub` is a prefix of `s` or of one of its suffixes (the empty marker is in every string) |
| Text.ContainsIffOccurs | news_parser.py:33-35 | The `in` test on class and path strings holds exactly when the marker occurs at some offset, both directions |
| Text.Decimal | news_parser.py:52-54 | `str(n)` gives a non-empty string of decimal digits with no leading zero |
| Text.ValueOfDecimal | news_parser.py:57-59 | `int(str(n)) == n`: comparing the re-read grid numbers with the clock compares the numbers themselves |
| Text.DecimalInjective | news_parser.py:52-54 | Distinct numbers format to distinct strings |
| Text.ValueOf | news_parser.py:57-59 | `int(s)` on a string of decimal digits: its value, most significant digit first |
| UrlList.Url | news_parser.py:62 | The address `https://www.mk.ru/news/{y}/{m}/{d}/` of a cell, with the numbers written by `str` (no zero padding) |
| UrlList.UrlPrefix | news_parser.py:49-63 | The list get_url_list returns for a clock reading: the addresses of the first cells of the product, up to but not including today's cell, or of the whole grid when today is not a cell |
| UrlList.Cell | news_parser.py:52-56 | The k-th tuple of `itertools.product(years, months, days)` is a grid cell (year from 2012, month 1..12, day 1..31) at position k |
| UrlList.CellOfIndex | news_parser.py:52-56 | Every grid cell is produced, at its own position: the product enumerates the cells without gaps or repeats |
| UrlList.IndexOrder | news_parser.py:56 | Product order on cells is year-then-month-then-day order, both directions |
| UrlList.StopWithinGrid | news_parser.py:56-60 | The stop position never exceeds the grid. When today is a cell, it lies strictly inside the grid, and the cell at the stop position is today, so the break is reached before the product is exhausted |
| UrlList.ParseUrlRoundTrip | news_parser.py:62 | Every address `https://www.mk.ru/news/{y}/{m}/{d}/` reads back as the date it was built from |
| UrlList.UrlInjective | news_parser.py:62 | Distinct cells give distinct addresses |
| UrlList.UrlPrefixMembership | news_parser.py:49-63 | For a clock on a real month and day, a cell's address is listed exactly when the cell comes strictly before today. The break leaves today and later out, and no earlier cell is skipped |
| UrlList.UrlPrefixOrdered | news_parser.py:56-62 | The list is in product order: an earlier entry is an earlier date |
| UrlList.ImpossibleDatesListed | news_parser.py:53-54 | For every finished year, 2/30, 2/31, 4/31, 6/31, 9/31 and 11/31 are listed |
| UrlList.GetUrlList | news_parser.py:49-63 | The loop returns exactly the addresses of the cells before today, in order. Their number is (year-2012)*372 + (month-1)*31 + (day-1), or none before 2012 |
| Extractor.HasClass | news_parser.py:32 | Python truthiness of `get('class')`: a node with no class attribute or an empty one is skipped |
| Extractor.IsHeadline | news_parser.py:33-34 | The headline test, checked first: the class contains 'news-listing__item' and the path contains 'h3' |
| Extractor.IsDayHeader | news_parser.py:35-36 | The `elif` test: the class contains 'news-listing__day-date' and the path contains 'h2', for a node that failed the headline test |
| Extractor.Title | news_parser.py:41-45 | A headline's title: its text, or '' when the text is None or empty |
| Extractor.DateAfter | news_parser.py:29-36 | The value `date` holds after the first pass: the text of the last day header visited, or the starting value when there is none |
| Extractor.Headlines | news_parser.py:30-34 | The nodes passing the headline test, in document order |
| Extractor.Extract | news_parser.py:24-46 | The list get_news returns for a fetched page: one record per headline, in document order, each with the final `date` and the headline's title |
| Extractor.PageResult | news_parser.py:11-46 | get_news's result: the records of the page of the first call that responds within `attempts` calls, or the unbound-page error when all of them raise |
| Extractor.Failures | news_parser.py:13-21 | The number of calls that raise in a row: at most `attempts`, all of them raised, and the next call (if within the budget) responded |
| Extractor.FetchWithRetry | news_parser.py:13-21 | The retry loop sleeps once per raising call. It obtains the page of the first call that responds, exactly when that call is within the budget. Otherwise all `attempts` calls raised |
| Extractor.HeadlineIndices | news_parser.py:30-34 | The collected positions are strictly increasing. Each is a node passing the headline test, and the k-th is the k-th such node |
| Extractor.HeadlineIndicesComplete | news_parser.py:30-34 | No node passing the headline test is missed |
| Extractor.ScanStep | news_parser.py:30-36 | One more node adds its position when it is a headline, or sets `date` to its text when it is a day header that is not a headline |
| Extractor.ScanPage | news_parser.py:24-38 | The first pass returns the headline positions and the final `date`, starting from '2012/1/2/' |
| Extractor.PairHeadlines | news_parser.py:39-45 | The second pass gives one record per collected headline, in order. Each record carries the single final `date`, and the node's text, or '' when that text is absent or empty |
| Extractor.GetNews | news_parser.py:11-46 | get_news sleeps once per failed attempt. It returns the records of the first page that responds, one per headline, or the unbound-page error when every attempt raised |
| Extractor.DateAfterAppend | news_parser.py:30-36 | The first pass over two stretches of the page is the pass over the second, started from the date the first left |
| Extractor.HeadlinesAppend | news_parser.py:30-34 | The headlines of two stretches of a page are those of each, in turn |
| Extractor.UnclassedNodeIgnored | news_parser.py:32-38 | A node with no class attribute, or an empty one, does not change the result: deleting it gives the same records |
| Extractor.DateIsLastHeader | news_parser.py:29-36 | `date` ends as the text of the page's last day header (None when it has no text) |
| Extractor.DateWithoutHeader | news_parser.py:29-36 | Without day headers, `date` keeps its initial value |
| Extractor.LastDateWins | news_parser.py:29-45 | Every record of a page carries the text of the page's last day header, including records of headlines that precede that header |
| Extractor.FallbackDateUsed | news_parser.py:29-45 | A page without day headers dates every record '2012/1/2/' |
| BatchWriter.RowText | news_parser.py:87-88 | One line of the file: `';'.join((date, title))` followed by a newline |
| BatchWriter.Render | news_parser.py:85-88 | The text written for a sequence of rows: their lines, in order |
| BatchWriter.TypedRows | news_parser.py:85-91 | The rows a page writes: its records up to, not including, the first whose date is None, where `join` raises |
| BatchWriter.BatchRows | news_parser.py:79-91 | The rows of several pages in URL order; a page whose fetch failed adds none |
| BatchWriter.StepAbort | news_parser.py:80-97 | The failure one URL causes, in the order the loop body meets them: the fetch, then `join`, then `% 0` |
| BatchWriter.Total | news_parser.py:76-93 | `total_count` after k URLs: `url_count` is 1, 2, ..., k in turn and each is added to it |
| BatchWriter.PauseAfter | news_parser.py:97-98 | The pause test after URL k: `total_count % timeout_evry_url == 0`, with a zero period excluded (it raises instead) |
| BatchWriter.Pauses | news_parser.py:93-98 | The URL numbers, in order, after which a run that processed `count` URLs slept |
| BatchWriter.Outcome | news_parser.py:79-98 | How a run ends: at the first URL whose fetch failed or whose records include a None date, after the first URL when the period is zero, or completed |
| BatchWriter.Written | news_parser.py:79-91 | The rows a run appends: those of every page before it stops, then those the failing page wrote before `join` raised |
| BatchWriter.RenderAppend | news_parser.py:84-91 | Writing two batches of rows appends the text of each, in order |
| BatchWriter.RoundTrip | news_parser.py:87-88 | Splitting the file into lines and each line at its first ';' recovers the rows written, in order. This needs dates without ';' and fields without newlines |
| BatchWriter.SemicolonInDateCorruptsRow | news_parser.py:87-88 | Nothing is escaped: a date `a;b` written with title `t` reads back as date `a` and title `b;t` |
| BatchWriter.TypedRowsSpec | news_parser.py:85-91 | A page writes its leading records that have text dates, in order. Writing stops at the first record whose date is None, where `join` raises |
| BatchWriter.TypedRowsAppend | news_parser.py:85-91 | After records that all have text dates, writing continues with the records that follow |
| BatchWriter.TotalClosedForm | news_parser.py:76-93 | `total_count` after k URLs is the triangular number k(k+1)/2 |
| BatchWriter.PausesExactly | news_parser.py:93-98 | A pause follows URL k exactly when 1 <= k <= the URLs processed, the period is non-zero, and k(k+1)/2 is a multiple of the period |
| BatchWriter.PacingExample | news_parser.py:93-98 | With period 3 and seven URLs the pauses follow URLs 2, 3, 5 and 6 |
| BatchWriter.OutputFile.constructor | news_parser.py:84 | The file opened for append starts with its existing content |
| BatchWriter.OutputFile.Write | news_parser.py:87-88 | A write appends its text and changes nothing else |
| BatchWriter.WriteStep | news_parser.py:85-91 | One record either adds its `date;title` line or, when its date is None, ends the page with the rows already written |
| BatchWriter.WritePage | news_parser.py:84-91 | The `with` block reports whether every record had a text date. The file gains exactly the lines of the records before the first None date |
| BatchWriter.FirstBad | news_parser.py:79-91 | The first URL whose fetch failed or whose records include a None date; every URL before it is good |
| BatchWriter.OutcomeCases | news_parser.py:79-98 | The run completes iff every page is fetched and fully dated and the period is non-zero (or there are no URLs), and the file then gets every row in URL order. Otherwise it stops at the first bad URL (fetch failure, then None date), or after the first URL when the period is zero, keeping the rows written before the failure |
| BatchWriter.VisitUrl | news_parser.py:80-98 | One pass of the loop body. It reports the first failure in source order: fetch, then `join`, then `% 0`. It appends the page's typed rows. When nothing fails, it increments `url_count`, adds it to `total_count`, and tests for a pause |
| BatchWriter.ProgressStep | news_parser.py:79-98 | A URL with no failure keeps the loop's invariant. The counters are i+1 and the triangular sum, the file holds the rows of the first i+1 pages, and the pause list grows by that URL when the test passes |
| BatchWriter.StopStep | news_parser.py:79-98 | A failure at URL i ends the run as `Aborted(i, reason)`, with the file holding the rows the run writes |
| BatchWriter.CompleteStep | news_parser.py:79-98 | Visiting every URL without failure ends the run as `Completed`, with all rows written |
| BatchWriter.NewsParse | news_parser.py:65-98 | The run's outcome, the text it appends to the file and the pauses it takes are those of the specification functions `Outcome`, `Written` and `Pauses` over the get_news results of the URLs |

## Left out

- Network: each `requests.get(url)` call is an entry of a script, either it raises or it responds with a parsed page. HTTP status codes are not checked, as in the source.
- `time.sleep(3)`: `GetNews` counts its retry sleeps (`sleeps`) and `NewsParse` records its pacing pauses (`pauses`). Neither waits.
- NewsParse: reports only the pacing pauses; the retry sleeps of each get_news call (line 19) are not reported.
- Decoding and parsing: `page.content.decode('utf-8')` and lxml's `html.fromstring` are not part of this model. A page is given already parsed, as its elements in document order. Decoding errors are not modelled, and neither are parse failures, such as `html.fromstring` raising on the empty body of a response that counts as a success (any status code does).
- XPath re-lookup: `tree.getpath` and `tree.xpath(path)[0]` are modelled by the element's position. lxml's paths name one element each, so the lookup returns the element the path came from. `'h3' in path` and `'h2' in path` are still tested on the path string.
- Clock: the source reads `datetime.now()` once at line 52 to fix the grid's last year, then in the tests at lines 57-59 for each cell. Those tests short-circuit: `.year` is read for every cell, `.month` only when the year matches, and `.day` only when the month matches too. The model reads the clock once, as `now`, so a run during which the date changes (a midnight or a new year between those reads) is not modelled.
- Files: `pathlib` folder creation and the path join are not part of this model. The appended file is `OutputFile`, starting from its existing content. The UTF-8 encoding of the written text is not modelled, and neither is text mode's newline translation (each `'\n'` written becomes `os.linesep`), so the file layout is the POSIX one. The commented-out header write is not modelled.
- `print` of progress lines and of the failing row: console output is left out. The `raise e` that follows becomes the outcome `Aborted(k, RowTypeError)`.
- NewsParse: the pause period `every` has no default; the source's default `timeout_evry_url=20` (line 65) applies only to callers that omit it, and the model takes the period as an explicit parameter. It requires at least five scripted outcomes per URL, the most `get_news(url)` can consume with its default five attempts. The URL strings themselves are not inspected.
- Extractor.GetNews: when every attempt raises, the source fails with an unbound `page` (UnboundLocalError). The model returns `Err(PageUnbound)` instead of an exception.
- The `__main__` block (taking the last 30 URLs and calling `news_parse` with period 50) and the unused imports are not part of this model.
