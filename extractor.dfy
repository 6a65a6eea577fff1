/**
 * get_news: fetch one listing page with a bounded retry loop, then scan the
 * parsed page in document order. The first pass collects headline nodes and keeps
 * overwriting a single running `date` at day headers; the second pass pairs every
 * headline with the value `date` holds at the END of the first pass.
 */
module Extractor {
  import opened Wrappers
  import opened Text

  /** An element of the parsed page: its XPath (`tree.getpath`), its `class` attribute and its `.text`. */
  datatype Node = Node(path: string, cls: Option<string>, text: Option<string>)

  /** The elements of a page in document order (`root.iter()`). */
  type Document = seq<Node>

  /** What one call of `requests.get(url)` does: raise, or return a response (any status) whose body parses to a page. */
  datatype Fetch = Raises | Responds(page: Document)

  /** One `(date, title)` tuple of the result; `date` is None when the day header it came from had no text. */
  datatype Record = Record(date: Option<string>, title: string)

  /** Every attempt raised: `page` is never bound and reading it fails. */
  datatype FetchError = PageUnbound

  const DefaultAttempts: int := 5
  const FallbackDate := "2012/1/2/"
  const ItemClass := "news-listing__item"
  const DayDateClass := "news-listing__day-date"

  function Max0(n: int): nat
  {
    if n > 0 then n else 0
  }

  /**
   * How many calls raise in a row before one responds, counting at most `attempts`
   * calls: the number of sleeps the retry loop performs.
   */
  function Failures(fetches: seq<Fetch>, attempts: int): (k: nat)
    requires attempts <= |fetches|
    ensures k <= Max0(attempts)
    ensures forall j :: 0 <= j < k ==> fetches[j].Raises?
    ensures k < attempts ==> fetches[k].Responds?
    decreases Max0(attempts)
  {
    if attempts <= 0 || fetches[0].Responds? then 0
    else 1 + Failures(fetches[1..], attempts - 1)
  }

  /** Python truthiness of the class attribute: an absent or empty class makes the node skipped. */
  predicate HasClass(n: Node)
  {
    n.cls.Some? && n.cls.value != ""
  }

  /** The headline test, checked first. */
  predicate IsHeadline(n: Node)
  {
    HasClass(n) && Contains(n.cls.value, ItemClass) && Contains(n.path, "h3")
  }

  /** The day-header test, reached only by a node that failed the headline test. */
  predicate IsDayHeader(n: Node)
  {
    HasClass(n) && !IsHeadline(n) && Contains(n.cls.value, DayDateClass) && Contains(n.path, "h2")
  }

  /** The value of `date` after the first pass has visited `doc`, when it started as `start`. */
  function DateAfter(doc: Document, start: Option<string>): Option<string>
    decreases |doc|
  {
    if |doc| == 0 then start
    else if IsDayHeader(doc[|doc| - 1]) then doc[|doc| - 1].text
    else DateAfter(doc[..|doc| - 1], start)
  }

  /** The headline nodes of `doc`, in document order. */
  function Headlines(doc: Document): seq<Node>
    decreases |doc|
  {
    if |doc| == 0 then []
    else Headlines(doc[..|doc| - 1]) + (if IsHeadline(doc[|doc| - 1]) then [doc[|doc| - 1]] else [])
  }

  /**
   * The positions of the headline nodes (what `news_xpath_list` identifies by path):
   * every headline position exactly once, increasing, and nothing else.
   */
  function HeadlineIndices(doc: Document): (idx: seq<nat>)
    ensures |idx| == |Headlines(doc)|
    ensures forall k :: 0 <= k < |idx| ==> idx[k] < |doc| && doc[idx[k]] == Headlines(doc)[k] && IsHeadline(doc[idx[k]])
    ensures forall k, l :: 0 <= k < l < |idx| ==> idx[k] < idx[l]
    decreases |doc|
  {
    if |doc| == 0 then []
    else
      var front := doc[..|doc| - 1];
      assert forall i :: 0 <= i < |front| ==> front[i] == doc[i];
      HeadlineIndices(front) + (if IsHeadline(doc[|doc| - 1]) then [|doc| - 1] else [])
  }

  /** No headline is missed: every headline position is listed. */
  lemma {:induction false} HeadlineIndicesComplete(doc: Document, i: nat)
    requires i < |doc| && IsHeadline(doc[i])
    ensures i in HeadlineIndices(doc)
    decreases |doc|
  {
    if i < |doc| - 1 {
      var front := doc[..|doc| - 1];
      HeadlineIndicesComplete(front, i);
    }
  }

  /** The text of a headline node, or '' when it has none or an empty one. */
  function Title(n: Node): string
  {
    if n.text.Some? && n.text.value != "" then n.text.value else ""
  }

  /** The list get_news returns for a page it fetched. */
  function Extract(doc: Document): seq<Record>
  {
    var date := DateAfter(doc, Some(FallbackDate));
    var heads := Headlines(doc);
    seq(|heads|, k requires 0 <= k < |heads| => Record(date, Title(heads[k])))
  }

  /** What get_news(url, attempts) returns when its calls of requests.get behave as `fetches`. */
  function PageResult(fetches: seq<Fetch>, attempts: int): Result<seq<Record>, FetchError>
    requires attempts <= |fetches|
  {
    var k := Failures(fetches, attempts);
    if k < attempts then Ok(Extract(fetches[k].page)) else Err(PageUnbound)
  }

  /** The first pass over a concatenation is the first pass over each part, in turn. */
  lemma {:induction false} DateAfterAppend(a: Document, b: Document, start: Option<string>)
    ensures DateAfter(a + b, start) == DateAfter(b, DateAfter(a, start))
    decreases |b|
  {
    if |b| > 0 {
      assert (a + b)[..|a + b| - 1] == a + b[..|b| - 1];
      DateAfterAppend(a, b[..|b| - 1], start);
    } else {
      assert a + b == a;
    }
  }

  /** The headlines of a concatenation are those of each part, in turn. */
  lemma {:induction false} HeadlinesAppend(a: Document, b: Document)
    ensures Headlines(a + b) == Headlines(a) + Headlines(b)
    decreases |b|
  {
    if |b| > 0 {
      assert (a + b)[..|a + b| - 1] == a + b[..|b| - 1];
      HeadlinesAppend(a, b[..|b| - 1]);
    } else {
      assert a + b == a;
    }
  }

  /** A node with no class, or an empty one, changes nothing: removing it leaves the result as it was. */
  lemma UnclassedNodeIgnored(doc: Document, i: nat)
    requires i < |doc| && !HasClass(doc[i])
    ensures Extract(doc[..i] + doc[i + 1..]) == Extract(doc)
  {
    var a, n, b := doc[..i], [doc[i]], doc[i + 1..];
    assert doc == a + n + b;
    var start := Some(FallbackDate);
    DateAfterAppend(a + n, b, start);
    DateAfterAppend(a, n, start);
    DateAfterAppend(a, b, start);
    assert DateAfter(n, DateAfter(a, start)) == DateAfter(a, start) by {
      assert n[..0] == [];
    }
    HeadlinesAppend(a + n, b);
    HeadlinesAppend(a, n);
    HeadlinesAppend(a, b);
    assert Headlines(n) == [] by {
      assert n[..0] == [];
    }
  }

  /** `date` ends as the text of the LAST day header of the page (None when that header has no text). */
  lemma {:induction false} DateIsLastHeader(doc: Document, j: nat, start: Option<string>)
    requires j < |doc| && IsDayHeader(doc[j])
    requires forall i :: j < i < |doc| ==> !IsDayHeader(doc[i])
    ensures DateAfter(doc, start) == doc[j].text
    decreases |doc|
  {
    if j < |doc| - 1 {
      var front := doc[..|doc| - 1];
      assert forall i :: 0 <= i < |front| ==> front[i] == doc[i];
      DateIsLastHeader(front, j, start);
    }
  }

  /** Without any day header, `date` keeps its starting value. */
  lemma {:induction false} DateWithoutHeader(doc: Document, start: Option<string>)
    requires forall i :: 0 <= i < |doc| ==> !IsDayHeader(doc[i])
    ensures DateAfter(doc, start) == start
    decreases |doc|
  {
    if |doc| > 0 {
      var front := doc[..|doc| - 1];
      assert forall i :: 0 <= i < |front| ==> front[i] == doc[i];
      DateWithoutHeader(front, start);
    }
  }

  /**
   * Last date wins: every record of a page carries the text of the page's last day
   * header, also the records of headlines that come before that header.
   */
  lemma LastDateWins(doc: Document, j: nat)
    requires j < |doc| && IsDayHeader(doc[j])
    requires forall i :: j < i < |doc| ==> !IsDayHeader(doc[i])
    ensures forall r :: r in Extract(doc) ==> r.date == doc[j].text
  {
    DateIsLastHeader(doc, j, Some(FallbackDate));
  }

  /** A page without day headers dates every record '2012/1/2/'. */
  lemma FallbackDateUsed(doc: Document)
    requires forall i :: 0 <= i < |doc| ==> !IsDayHeader(doc[i])
    ensures forall r :: r in Extract(doc) ==> r.date == Some(FallbackDate)
  {
    DateWithoutHeader(doc, Some(FallbackDate));
  }

  /**
   * get_news's retry loop (lines 13-21): calls until one does not raise, sleeping after
   * each call that raises; gives up after `attempts` calls.
   */
  method FetchWithRetry(fetches: seq<Fetch>, attempts: int) returns (page: Option<Document>, sleeps: nat)
    requires attempts <= |fetches|
    ensures sleeps == Failures(fetches, attempts)
    ensures page.Some? <==> sleeps < attempts
    ensures page.Some? ==> page.value == fetches[sleeps].page
    ensures page.None? ==> sleeps == Max0(attempts) && forall j :: 0 <= j < attempts ==> fetches[j].Raises?
  {
    page := None;
    sleeps := 0;
    var attempt := 0;
    while attempt < attempts
      invariant 0 <= attempt <= Max0(attempts)
      invariant sleeps == attempt
      invariant forall j :: 0 <= j < attempt ==> fetches[j].Raises?
    {
      var outcome := fetches[attempt];
      if outcome.Raises? {
        attempt := attempt + 1;
        sleeps := sleeps + 1;
        continue;
      }
      page := Some(outcome.page);
      break;
    }
  }

  /** One more node of the first pass: it adds its position if a headline and sets the date if a day header. */
  lemma ScanStep(doc: Document, i: nat)
    requires i < |doc|
    ensures HeadlineIndices(doc[..i + 1]) == HeadlineIndices(doc[..i]) + (if IsHeadline(doc[i]) then [i] else [])
    ensures DateAfter(doc[..i + 1], Some(FallbackDate))
         == if IsDayHeader(doc[i]) then doc[i].text else DateAfter(doc[..i], Some(FallbackDate))
  {
    assert doc[..i + 1][..i] == doc[..i];
  }

  /**
   * get_news's first pass (lines 24-38): visits the nodes in document order, collects
   * the headline positions and overwrites `date` at day headers.
   */
  method ScanPage(doc: Document) returns (news: seq<nat>, date: Option<string>)
    ensures news == HeadlineIndices(doc)
    ensures date == DateAfter(doc, Some(FallbackDate))
  {
    news := [];
    date := Some(FallbackDate);
    var i := 0;
    while i < |doc|
      invariant 0 <= i <= |doc|
      invariant news == HeadlineIndices(doc[..i])
      invariant date == DateAfter(doc[..i], Some(FallbackDate))
    {
      var node := doc[i];
      ScanStep(doc, i);
      if node.cls.Some? && node.cls.value != "" {
        if Contains(node.cls.value, ItemClass) && Contains(node.path, "h3") {
          news := news + [i];
        } else if Contains(node.cls.value, DayDateClass) && Contains(node.path, "h2") {
          date := node.text;
        }
      }
      i := i + 1;
    }
    assert doc[..i] == doc;
  }

  /**
   * get_news's second pass (lines 39-45): one record per collected headline, in order,
   * each with the same final `date` and the node's text or ''.
   */
  method PairHeadlines(doc: Document, news: seq<nat>, date: Option<string>) returns (records: seq<Record>)
    requires forall k :: 0 <= k < |news| ==> news[k] < |doc|
    ensures |records| == |news|
    ensures forall k :: 0 <= k < |records| ==> records[k].date == date
    ensures forall k :: 0 <= k < |records| ==>
      records[k].title == (if doc[news[k]].text.Some? then doc[news[k]].text.value else "")
  {
    records := [];
    for k := 0 to |news|
      invariant |records| == k
      invariant forall q :: 0 <= q < k ==> records[q] == Record(date, Title(doc[news[q]]))
    {
      var value := doc[news[k]].text;
      if value.Some? && value.value != "" {
        records := records + [Record(date, value.value)];
      } else {
        records := records + [Record(date, "")];
      }
    }
  }

  /**
   * get_news(url, attempts): the retry loop, then both passes. Exhausting the attempts
   * is an explicit error where the script fails on an unbound `page`.
   */
  method GetNews(fetches: seq<Fetch>, attempts: int) returns (news: Result<seq<Record>, FetchError>, sleeps: nat)
    requires attempts <= |fetches|
    ensures sleeps == Failures(fetches, attempts)
    ensures news == PageResult(fetches, attempts)
    ensures news.Ok? ==> |news.value| == |Headlines(fetches[sleeps].page)|
  {
    var page;
    page, sleeps := FetchWithRetry(fetches, attempts);
    if page.None? {
      return Err(PageUnbound), sleeps;
    }
    var doc := page.value;
    var positions, date := ScanPage(doc);
    var records := PairHeadlines(doc, positions, date);
    assert records == Extract(doc);
    news := Ok(records);
  }
}
