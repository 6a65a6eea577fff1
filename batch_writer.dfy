/**
 * news_parse: drives get_news over the URLs in order, appends one line
 * `date;title` per record to the output file, and paces itself with a pause
 * whenever the running total `total_count` (the sum 1 + 2 + ... + k after the
 * k-th URL, since it adds `url_count` each time) is a multiple of the pause period.
 */
module BatchWriter {
  import opened Wrappers
  import opened Text
  import opened Extractor

  /** A record whose date is text: what `';'.join(row)` accepts. */
  datatype Row = Row(date: string, title: string)

  /** Why a run stopped early: get_news failed, `join` met a None date, or the pause test divided by zero. */
  datatype Abort = FetchFailed | RowTypeError | ZeroDivision

  /** How a run ended; `url` is the 0-based position of the URL being processed when it aborted. */
  datatype RunOutcome = Completed | Aborted(url: nat, reason: Abort)

  /** One line of the file: the two fields joined by ';', then a newline. */
  function RowText(r: Row): string
  {
    r.date + ";" + r.title + "\n"
  }

  /** The text a sequence of rows adds to the file. */
  function Render(rows: seq<Row>): string
  {
    if |rows| == 0 then "" else RowText(rows[0]) + Render(rows[1..])
  }

  /** A reader of the file: split into lines at '\n', each line at its first ';'. */
  function ParseRows(text: string): seq<Row>
    decreases |text|
  {
    if |text| == 0 then []
    else
      var (line, rest) := SplitFirst(text, '\n');
      var (date, title) := SplitFirst(line, ';');
      [Row(date, title)] + ParseRows(rest)
  }

  /** Fields that the file layout can carry: no ';' in the date and no newline in either field. */
  predicate Clean(rows: seq<Row>)
  {
    forall k :: 0 <= k < |rows| ==> ';' !in rows[k].date && '\n' !in rows[k].date && '\n' !in rows[k].title
  }

  lemma {:induction false} RenderAppend(a: seq<Row>, b: seq<Row>)
    ensures Render(a + b) == Render(a) + Render(b)
    decreases |a|
  {
    if |a| > 0 {
      assert (a + b)[1..] == a[1..] + b;
      RenderAppend(a[1..], b);
    } else {
      assert a + b == b;
    }
  }

  /** Reading the file back recovers the rows written, in order, when their fields are clean. */
  lemma {:induction false} RoundTrip(rows: seq<Row>)
    requires Clean(rows)
    ensures ParseRows(Render(rows)) == rows
    decreases |rows|
  {
    if |rows| > 0 {
      var r := rows[0];
      var line := r.date + ";" + r.title;
      NoNewlineInLine(r.date, r.title);
      assert Render(rows) == line + ['\n'] + Render(rows[1..]);
      SplitFirstJoin(line, '\n', Render(rows[1..]));
      assert line == r.date + [';'] + r.title;
      SplitFirstJoin(r.date, ';', r.title);
      assert Clean(rows[1..]) by {
        assert forall k :: 0 <= k < |rows[1..]| ==> rows[1..][k] == rows[k + 1];
      }
      RoundTrip(rows[1..]);
    }
  }

  /** No newline anywhere in a line of text. */
  lemma NoNewlineInLine(date: string, title: string)
    requires '\n' !in date && '\n' !in title
    ensures '\n' !in date + ";" + title
  {
    var line := date + ";" + title;
    assert forall i :: 0 <= i < |line| ==> line[i] != '\n' by {
      assert forall i :: 0 <= i < |date| ==> line[i] == date[i];
      assert forall i :: |date| < i < |line| ==> line[i] == title[i - |date| - 1];
    }
  }

  /**
   * The layout is not escaped: a ';' inside a date moves the field boundary when the
   * file is read back, so the date loses its tail and the title gains it.
   */
  lemma SemicolonInDateCorruptsRow(a: string, b: string, title: string)
    requires ';' !in a
    requires '\n' !in a && '\n' !in b && '\n' !in title
    ensures ParseRows(Render([Row(a + ";" + b, title)])) == [Row(a, b + ";" + title)]
  {
    var date := a + ";" + b;
    NoNewlineInLine(a, b);
    NoNewlineInLine(date, title);
    var line := date + ";" + title;
    assert Render([Row(date, title)]) == line + ['\n'] + "";
    SplitFirstJoin(line, '\n', "");
    assert line == a + [';'] + (b + ";" + title);
    SplitFirstJoin(a, ';', b + ";" + title);
  }

  /** The rows written for a page: its records up to, not including, the first one with a None date. */
  function TypedRows(recs: seq<Record>): seq<Row>
    decreases |recs|
  {
    if |recs| == 0 || recs[0].date.None? then []
    else [Row(recs[0].date.value, recs[0].title)] + TypedRows(recs[1..])
  }

  /** The rows written are the leading records with text dates, in order, and writing stops at a None date. */
  lemma {:induction false} TypedRowsSpec(recs: seq<Record>)
    ensures var rows := TypedRows(recs);
      && |rows| <= |recs|
      && (forall k :: 0 <= k < |rows| ==> recs[k].date.Some? && rows[k] == Row(recs[k].date.value, recs[k].title))
      && (|rows| < |recs| ==> recs[|rows|].date.None?)
    decreases |recs|
  {
    if |recs| > 0 && recs[0].date.Some? {
      TypedRowsSpec(recs[1..]);
    }
  }

  /** Every record of a page has a text date, so `join` writes all of them. */
  predicate Typed(recs: seq<Record>)
  {
    forall k :: 0 <= k < |recs| ==> recs[k].date.Some?
  }

  /** A URL whose page was fetched and whose records all have text dates. */
  predicate PageOk(page: Result<seq<Record>, FetchError>)
  {
    page.Ok? && Typed(page.value)
  }

  /** The rows one URL adds to the file: none when get_news failed. */
  function PageRows(page: Result<seq<Record>, FetchError>): seq<Row>
  {
    if page.Ok? then TypedRows(page.value) else []
  }

  /** The rows of a sequence of pages, page by page and record by record. */
  function BatchRows(pages: seq<Result<seq<Record>, FetchError>>): seq<Row>
    decreases |pages|
  {
    if |pages| == 0 then []
    else
      BatchRows(pages[..|pages| - 1]) + PageRows(pages[|pages| - 1])
  }

  /** get_news's result for each URL, given how its calls of requests.get behave. */
  function PageResults(scripts: seq<seq<Fetch>>): (pages: seq<Result<seq<Record>, FetchError>>)
    requires forall k :: 0 <= k < |scripts| ==> DefaultAttempts <= |scripts[k]|
  {
    seq(|scripts|, k requires 0 <= k < |scripts| => PageResult(scripts[k], DefaultAttempts))
  }

  /** `total_count` after the k-th URL: the sum 1 + 2 + ... + k of the successive `url_count`s. */
  function Total(k: nat): nat
  {
    if k == 0 then 0 else Total(k - 1) + k
  }

  /** `total_count` is the triangular number k(k+1)/2. */
  lemma {:induction false} TotalClosedForm(k: nat)
    ensures 2 * Total(k) == k * (k + 1)
  {
    if k > 0 {
      TotalClosedForm(k - 1);
    }
  }

  /** Whether news_parse sleeps after the k-th URL (Python's `x % n == 0` and Dafny's agree for n != 0). */
  predicate PauseAfter(k: nat, every: int)
  {
    every != 0 && Total(k) % every == 0
  }

  /** The URL numbers (1-based) after which a run that processed `count` URLs has slept. */
  function Pauses(count: nat, every: int): seq<nat>
  {
    if count == 0 then []
    else Pauses(count - 1, every) + (if PauseAfter(count, every) then [count] else [])
  }

  /** A pause follows URL k exactly when k(k+1)/2 is a multiple of the pause period. */
  lemma {:induction false} PausesExactly(count: nat, every: int, k: int)
    ensures k in Pauses(count, every) <==> 1 <= k <= count && every != 0 && (k * (k + 1) / 2) % every == 0
    decreases count
  {
    if count > 0 {
      PausesExactly(count - 1, every, k);
      if 1 <= k {
        TotalClosedForm(k);
      }
    }
  }

  /** With period 3 and seven URLs the script sleeps four times, after URLs 2, 3, 5 and 6, not after 3 and 6 only. */
  lemma PacingExample()
    ensures Pauses(7, 3) == [2, 3, 5, 6]
  {
    assert Total(2) == 3 && Total(3) == 6 && Total(5) == 15 && Total(6) == 21;
    assert Total(1) == 1 && Total(4) == 10 && Total(7) == 28;
  }

  /** The output file, opened in append mode: writing only ever adds text at its end. */
  class OutputFile {
    var content: string

    constructor (existing: string)
      ensures content == existing
    {
      content := existing;
    }

    method Write(s: string)
      modifies this
      ensures content == old(content) + s
    {
      content := content + s;
    }
  }

  /** After records that all have text dates, `join` goes on to the records that follow. */
  lemma {:induction false} TypedRowsAppend(p: seq<Record>, q: seq<Record>)
    requires Typed(p)
    ensures TypedRows(p + q) == TypedRows(p) + TypedRows(q)
    decreases |p|
  {
    if |p| > 0 {
      assert (p + q)[0] == p[0];
      assert (p + q)[1..] == p[1..] + q;
      assert Typed(p[1..]) by {
        assert forall k :: 0 <= k < |p[1..]| ==> p[1..][k] == p[k + 1];
      }
      TypedRowsAppend(p[1..], q);
    } else {
      assert p + q == q;
    }
  }

  /** One more record of the `with` block: a text date adds its line, a None date ends the page. */
  lemma WriteStep(news: seq<Record>, j: nat)
    requires j < |news| && Typed(news[..j])
    ensures news[j].date.Some? ==>
      && Typed(news[..j + 1])
      && TypedRows(news[..j + 1]) == TypedRows(news[..j]) + [Row(news[j].date.value, news[j].title)]
    ensures news[j].date.None? ==> !Typed(news) && TypedRows(news) == TypedRows(news[..j])
  {
    assert news[..j + 1] == news[..j] + [news[j]];
    TypedRowsAppend(news[..j], [news[j]]);
    assert news == news[..j] + news[j..];
    TypedRowsAppend(news[..j], news[j..]);
    assert news[j..][0] == news[j];
  }

  /**
   * The `with open(file_path, 'a')` block (lines 84-91): writes each record as a line;
   * the first record with a None date makes `join` raise and ends the block.
   */
  method WritePage(file: OutputFile, news: seq<Record>) returns (typed: bool)
    modifies file
    ensures typed == Typed(news)
    ensures file.content == old(file.content) + Render(TypedRows(news))
  {
    var j := 0;
    while j < |news|
      invariant 0 <= j <= |news|
      invariant Typed(news[..j])
      invariant file.content == old(file.content) + Render(TypedRows(news[..j]))
    {
      WriteStep(news, j);
      match news[j].date {
        case None =>
          return false;
        case Some(date) =>
          ghost var before := file.content;
          file.Write(date + ";" + news[j].title);
          file.Write("\n");
          assert file.content == before + RowText(Row(date, news[j].title));
          RenderAppend(TypedRows(news[..j]), [Row(date, news[j].title)]);
      }
      j := j + 1;
    }
    assert news[..j] == news;
    return true;
  }

  /** The position of the first URL whose page is not OK, or the number of URLs when all are. */
  function FirstBad(pages: seq<Result<seq<Record>, FetchError>>): (k: nat)
    ensures k <= |pages|
    ensures forall j :: 0 <= j < k ==> PageOk(pages[j])
    ensures k < |pages| ==> !PageOk(pages[k])
    decreases |pages|
  {
    if |pages| == 0 || !PageOk(pages[0]) then 0 else 1 + FirstBad(pages[1..])
  }

  /** How a run over pages `pages` with pause period `every` ends. */
  function Outcome(pages: seq<Result<seq<Record>, FetchError>>, every: int): RunOutcome
  {
    var k := FirstBad(pages);
    if k > 0 && every == 0 then Aborted(0, ZeroDivision)
    else if k == |pages| then Completed
    else if pages[k].Err? then Aborted(k, FetchFailed)
    else Aborted(k, RowTypeError)
  }

  /** The rows such a run appends: every row of the pages before it stops, then those of the page it stops in. */
  function Written(pages: seq<Result<seq<Record>, FetchError>>, every: int): seq<Row>
  {
    var k := FirstBad(pages);
    if k > 0 && every == 0 then TypedRows(pages[0].value)
    else BatchRows(pages[..k]) + (if k < |pages| then PageRows(pages[k]) else [])
  }

  /** How many URLs went through the pause test. */
  function Processed(outcome: RunOutcome, count: nat): nat
  {
    if outcome.Completed? then count else outcome.url
  }

  /**
   * What a run does, case by case: it completes exactly when every page is fetched and
   * fully dated and (for a non-empty list) the period is not zero, having written every
   * row in URL order, then record order; otherwise it stops at the first page that fails,
   * keeping the rows written before the failure.
   */
  lemma OutcomeCases(pages: seq<Result<seq<Record>, FetchError>>, every: int)
    ensures var outcome := Outcome(pages, every);
      outcome.Completed? <==> (forall k :: 0 <= k < |pages| ==> PageOk(pages[k])) && (every != 0 || |pages| == 0)
    ensures Outcome(pages, every).Completed? ==> Written(pages, every) == BatchRows(pages)
    ensures var outcome := Outcome(pages, every);
      outcome.Aborted? ==>
        var k := outcome.url;
        && k < |pages|
        && (forall j :: 0 <= j < k ==> PageOk(pages[j]))
        && match outcome.reason
           case FetchFailed => pages[k].Err? && Written(pages, every) == BatchRows(pages[..k])
           case RowTypeError =>
             && pages[k].Ok? && !Typed(pages[k].value)
             && Written(pages, every) == BatchRows(pages[..k]) + TypedRows(pages[k].value)
           case ZeroDivision =>
             && every == 0 && k == 0 && PageOk(pages[0])
             && Written(pages, every) == TypedRows(pages[0].value)
  {
    var k := FirstBad(pages);
    if k == |pages| {
      assert pages[..k] == pages;
    }
  }

  /** The abort one URL causes, if any, in the order the loop body meets them. */
  function StepAbort(page: Result<seq<Record>, FetchError>, every: int): Option<Abort>
  {
    if page.Err? then Some(FetchFailed)
    else if !Typed(page.value) then Some(RowTypeError)
    else if every == 0 then Some(ZeroDivision)
    else None
  }

  /**
   * The body of news_parse's loop for one URL (lines 80-98): get_news, count the URL,
   * append its rows, add `url_count` to `total_count`, and test for a pause.
   */
  method VisitUrl(file: OutputFile, script: seq<Fetch>, urlCount: nat, totalCount: nat, every: int)
    returns (abort: Option<Abort>, newUrlCount: nat, newTotalCount: nat, paused: bool)
    requires DefaultAttempts <= |script|
    modifies file
    ensures var page := PageResult(script, DefaultAttempts);
      && abort == StepAbort(page, every)
      && file.content == old(file.content) + Render(PageRows(page))
      && (abort.None? ==>
            && newUrlCount == urlCount + 1
            && newTotalCount == totalCount + newUrlCount
            && paused == (newTotalCount % every == 0))
  {
    newUrlCount, newTotalCount, paused := urlCount, totalCount, false;
    var news, _ := GetNews(script, DefaultAttempts);
    if news.Err? {
      return Some(FetchFailed), newUrlCount, newTotalCount, paused;
    }
    newUrlCount := newUrlCount + 1;
    var typed := WritePage(file, news.value);
    if !typed {
      return Some(RowTypeError), newUrlCount, newTotalCount, paused;
    }
    newTotalCount := newTotalCount + newUrlCount;
    if every == 0 {
      return Some(ZeroDivision), newUrlCount, newTotalCount, paused;
    }
    paused := newTotalCount % every == 0;
    abort := None;
  }

  /** The variables news_parse updates per URL: the two counters, the pauses taken so far, the file's text. */
  datatype LoopState = LoopState(urlCount: int, totalCount: int, pauses: seq<nat>, content: string)

  /**
   * The state of news_parse after its first i URLs all went through: the counters,
   * every page so far fetched and dated, the file holding their rows after `start`,
   * the pauses taken.
   */
  ghost predicate Progress(pages: seq<Result<seq<Record>, FetchError>>, every: int, i: nat, start: string, st: LoopState)
  {
    && i <= |pages|
    && st.urlCount == i && st.totalCount == Total(i)
    && (forall j :: 0 <= j < i ==> PageOk(pages[j]))
    && (i > 0 ==> every != 0)
    && st.content == start + Render(BatchRows(pages[..i]))
    && st.pauses == Pauses(i, every)
  }

  /** A URL that passes every test of the loop body extends the progress by one. */
  lemma ProgressStep(pages: seq<Result<seq<Record>, FetchError>>, every: int, i: nat, start: string,
                     st: LoopState, paused: bool, after: string)
    requires i < |pages| && Progress(pages, every, i, start, st)
    requires StepAbort(pages[i], every).None?
    requires after == st.content + Render(PageRows(pages[i]))
    requires paused == ((st.totalCount + st.urlCount + 1) % every == 0)
    ensures Progress(pages, every, i + 1, start,
                     LoopState(st.urlCount + 1, st.totalCount + st.urlCount + 1,
                               st.pauses + (if paused then [st.urlCount + 1] else []), after))
  {
    assert PageOk(pages[i]) && every != 0;
    assert forall j :: 0 <= j < i + 1 ==> PageOk(pages[j]);
    ContentStep(start, st.content, after, pages, i);
    assert Pauses(i + 1, every) == Pauses(i, every) + (if PauseAfter(i + 1, every) then [i + 1] else []);
  }

  /** The rows of the first i + 1 pages: those of the first i, then the page at i. */
  lemma BatchRowsStep(pages: seq<Result<seq<Record>, FetchError>>, i: nat)
    requires i < |pages|
    ensures BatchRows(pages[..i + 1])
         == BatchRows(pages[..i]) + PageRows(pages[i])
  {
    assert pages[..i + 1][..i] == pages[..i];
  }

  /** Appending the text of `x`, then of `y`, appends the text of `x + y`. */
  lemma AppendRendered(start: string, before: string, after: string, x: seq<Row>, y: seq<Row>)
    requires before == start + Render(x)
    requires after == before + Render(y)
    ensures after == start + Render(x + y)
  {
    RenderAppend(x, y);
  }

  /** The file after visiting the i-th URL: the rows of the pages before it, then that page's rows. */
  lemma ContentStep(start: string, before: string, after: string, pages: seq<Result<seq<Record>, FetchError>>, i: nat)
    requires i < |pages|
    requires before == start + Render(BatchRows(pages[..i]))
    requires after == before + Render(PageRows(pages[i]))
    ensures after == start + Render(BatchRows(pages[..i + 1]))
  {
    BatchRowsStep(pages, i);
    AppendRendered(start, before, after, BatchRows(pages[..i]), PageRows(pages[i]));
  }

  /** A run that aborts at the i-th URL: its outcome and the file it leaves. */
  lemma StopStep(pages: seq<Result<seq<Record>, FetchError>>, every: int, i: nat, start: string,
                 st: LoopState, after: string, reason: Abort)
    requires i < |pages| && Progress(pages, every, i, start, st)
    requires StepAbort(pages[i], every) == Some(reason)
    requires after == st.content + Render(PageRows(pages[i]))
    ensures Outcome(pages, every) == Aborted(i, reason)
    ensures after == start + Render(Written(pages, every))
    ensures st.pauses == Pauses(i, every)
  {
    ContentStep(start, st.content, after, pages, i);
    BatchRowsStep(pages, i);
    if reason == ZeroDivision {
      assert i == 0 && FirstBad(pages) > 0;
      assert BatchRows(pages[..0]) == [];
      assert Written(pages, every) == PageRows(pages[0]) == [] + PageRows(pages[0]);
    } else {
      assert FirstBad(pages) == i;
      assert Written(pages, every) == BatchRows(pages[..i]) + PageRows(pages[i]);
    }
  }

  /** A run that visits every URL: its outcome and the file it leaves. */
  lemma CompleteStep(pages: seq<Result<seq<Record>, FetchError>>, every: int, start: string, st: LoopState)
    requires Progress(pages, every, |pages|, start, st)
    ensures Outcome(pages, every) == Completed
    ensures st.content == start + Render(Written(pages, every))
    ensures st.pauses == Pauses(|pages|, every)
  {
    var k := FirstBad(pages);
    assert k == |pages|;
    assert !(k > 0 && every == 0);
    assert Written(pages, every) == BatchRows(pages[..k]) + [];
    assert BatchRows(pages[..k]) + [] == BatchRows(pages[..|pages|]);
    assert st.content == start + Render(BatchRows(pages[..|pages|]));
  }

  /**
   * news_parse(target_folder, file_name, urls, every): visits the URLs in order, pausing
   * after those that pass the pause test. `scripts[k]` is how requests.get behaves for `urls[k]`.
   */
  method NewsParse(file: OutputFile, urls: seq<string>, scripts: seq<seq<Fetch>>, every: int)
    returns (outcome: RunOutcome, pauses: seq<nat>)
    requires |scripts| == |urls|
    requires forall k :: 0 <= k < |scripts| ==> DefaultAttempts <= |scripts[k]|
    modifies file
    ensures outcome == Outcome(PageResults(scripts), every)
    ensures file.content == old(file.content) + Render(Written(PageResults(scripts), every))
    ensures pauses == Pauses(Processed(outcome, |urls|), every)
  {
    ghost var pages := PageResults(scripts);
    var urlCount := 0;
    var totalCount := 0;
    pauses := [];
    var i := 0;
    while i < |urls|
      invariant i <= |urls|
      invariant Progress(pages, every, i, old(file.content), LoopState(urlCount, totalCount, pauses, file.content))
    {
      ghost var st := LoopState(urlCount, totalCount, pauses, file.content);
      var abort, paused;
      abort, urlCount, totalCount, paused := VisitUrl(file, scripts[i], urlCount, totalCount, every);
      assert pages[i] == PageResult(scripts[i], DefaultAttempts);
      if abort.Some? {
        StopStep(pages, every, i, old(file.content), st, file.content, abort.value);
        return Aborted(i, abort.value), pauses;
      }
      ProgressStep(pages, every, i, old(file.content), st, paused, file.content);
      if paused {
        pauses := pauses + [urlCount];
      }
      i := i + 1;
    }
    CompleteStep(pages, every, old(file.content), LoopState(urlCount, totalCount, pauses, file.content));
    outcome := Completed;
  }
}
